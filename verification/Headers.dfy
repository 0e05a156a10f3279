/** The `http.Header` multimap: field names in canonical form, values in arrival order. */
module Headers {
  import opened ByteStrings

  type Header = map<string, seq<string>>

  // ---------------------------------------------------------------- canonical names

  /** A byte that may occur in a field name (RFC 9110, section 5.6.2, tchar). */
  predicate IsTokenChar(c: char) {
    'a' <= c <= 'z' || 'A' <= c <= 'Z' || '0' <= c <= '9' ||
    c in {'!', '#', '$', '%', '&', '\'', '*', '+', '-', '.', '^', '_', '`', '|', '~'}
  }

  /** All visible ASCII bytes but the delimiters: the quote and ( ) , / : ; < = > ? @ [ \ ] { }. */
  lemma TokenCharsAre(c: char)
    ensures IsTokenChar(c) <==>
            33 <= c as int < 127 &&
            c as int !in {34, 40, 41, 44, 47, 58, 59, 60, 61, 62, 63, 64, 91, 92, 93, 123, 125}
  {
    var ch := c as int;
    assert c == ch as char;
  }

  predicate IsToken(s: string) { forall i :: 0 <= i < |s| ==> IsTokenChar(s[i]) }

  /** A letter that canonical form puts in upper case: the first one and any after a hyphen. */
  predicate Leads(s: string, i: nat)
    requires i < |s|
  {
    i == 0 || s[i - 1] == '-'
  }

  function Capitalize(s: string): (r: string)
    ensures |r| == |s|
  {
    seq(|s|, i requires 0 <= i < |s| => if Leads(s, i) then UpperChar(s[i]) else LowerChar(s[i]))
  }

  /** `textproto.CanonicalMIMEHeaderKey`: a name with a byte outside `tchar` is left alone. */
  function CanonicalKey(s: string): string {
    if IsToken(s) then Capitalize(s) else s
  }

  /** Canonical form, byte by byte: capitals at the start and after each hyphen (byte 45), small letters
      elsewhere, everything else as it is. */
  lemma CanonicalForm(s: string)
    requires IsToken(s)
    ensures |CanonicalKey(s)| == |s|
    ensures forall i :: 0 <= i < |s| ==>
              CanonicalKey(s)[i] as int ==
              if i == 0 || s[i - 1] as int == 45 then
                if 97 <= s[i] as int <= 122 then s[i] as int - 32 else s[i] as int
              else if 65 <= s[i] as int <= 90 then s[i] as int + 32 else s[i] as int
  {
    hide LowerChar, UpperChar, IsToken;
    var key := CanonicalKey(s);
    forall i | 0 <= i < |s|
      ensures key[i] == if i == 0 || s[i - 1] as int == 45 then UpperChar(s[i]) else LowerChar(s[i])
    {
      assert '-' as int == 45;
    }
  }

  lemma CharCase(c: char)
    ensures LowerChar(UpperChar(c)) == LowerChar(c) == LowerChar(LowerChar(c))
    ensures UpperChar(LowerChar(c)) == UpperChar(c)
    ensures LowerChar(c) == '-' <==> c == '-'
  {
  }

  lemma LowerOfCapitalize(s: string)
    ensures Lower(Capitalize(s)) == Lower(s)
  {
    hide LowerChar, UpperChar;
    forall i | 0 <= i < |s|
      ensures Lower(Capitalize(s))[i] == Lower(s)[i]
    {
      CharCase(s[i]);
    }
  }

  lemma CapitalizeOfLower(s: string)
    ensures Capitalize(Lower(s)) == Capitalize(s)
  {
    hide LowerChar, UpperChar;
    forall i | 0 <= i < |s|
      ensures Capitalize(Lower(s))[i] == Capitalize(s)[i]
    {
      CharCase(s[i]);
      if i > 0 { CharCase(s[i - 1]); }
    }
  }

  lemma CapitalizeKeepsToken(s: string)
    requires IsToken(s)
    ensures IsToken(Capitalize(s))
  {
    forall i | 0 <= i < |s|
      ensures IsTokenChar(Capitalize(s)[i])
    {
      assert IsTokenChar(s[i]);
    }
  }

  /** Two field names get the same key exactly when they differ in letter case only. */
  lemma KeysFoldCase(a: string, b: string)
    requires IsToken(a) && IsToken(b)
    ensures CanonicalKey(a) == CanonicalKey(b) <==> Lower(a) == Lower(b)
  {
    LowerOfCapitalize(a);
    LowerOfCapitalize(b);
    CapitalizeOfLower(a);
    CapitalizeOfLower(b);
  }

  lemma CanonicalKeyIdempotent(s: string)
    ensures CanonicalKey(CanonicalKey(s)) == CanonicalKey(s)
  {
    if IsToken(s) {
      CapitalizeKeepsToken(s);
      LowerOfCapitalize(s);
      CapitalizeOfLower(s);
      CapitalizeOfLower(Capitalize(s));
    }
  }

  // ---------------------------------------------------------------- the multimap

  function ValuesOf(h: Header, key: string): seq<string> {
    if key in h then h[key] else []
  }

  /** `Header.Add`. */
  function Add(h: Header, name: string, value: string): Header {
    var key := CanonicalKey(name);
    h[key := ValuesOf(h, key) + [value]]
  }

  /** `Header.Get`: the first value, or the empty string. */
  function Get(h: Header, name: string): string {
    var vs := ValuesOf(h, CanonicalKey(name));
    if |vs| > 0 then vs[0] else ""
  }

  /** `Header.Set`. */
  function Set(h: Header, name: string, value: string): Header {
    h[CanonicalKey(name) := [value]]
  }

  /** Every key is canonical and carries a value, as in any header built by `Add` alone. */
  predicate Canonical(h: Header) {
    forall k :: k in h ==> CanonicalKey(k) == k && |h[k]| > 0
  }

  lemma AddKeepsCanonical(h: Header, name: string, value: string)
    requires Canonical(h)
    ensures Canonical(Add(h, name, value))
  {
    CanonicalKeyIdempotent(name);
  }
}
