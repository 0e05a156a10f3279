/** The request the mirror sends on: which captured header fields it carries. */
module Mirror {
  import opened ByteStrings
  import opened Headers
  import opened HttpParser

  const HOP_BY_HOP := {"connection", "keep-alive", "proxy-authenticate", "proxy-authorization",
                       "te", "trailers", "transfer-encoding", "upgrade"}
  const SOURCE_MARK := "X-Mirror-Source"
  const CLIENT_MARK := "X-Original-Client"

  predicate IsHopByHop(name: string) { Lower(name) in HOP_BY_HOP }

  /** What the copy loop makes of the captured fields, before the marks are set. */
  function Kept(h: Header): Header {
    map k | k in h && !IsHopByHop(k) :: h[k]
  }

  function Forwarded(h: Header, srcIP: string): Header {
    Kept(h)[CanonicalKey(SOURCE_MARK) := ["ebpf-mirror-agent"]][CanonicalKey(CLIENT_MARK) := [srcIP]]
  }

  /** The two nested loops over names and values, adding each value under its name. */
  method CopyFields(h: Header) returns (out: Header)
    requires Canonical(h)
    ensures out == Kept(h)
  {
    out := map[];
    var pending := h.Keys;
    while pending != {}
      invariant pending <= h.Keys
      invariant out == map k | k in h && k !in pending && !IsHopByHop(k) :: h[k]
      decreases pending
    {
      var k :| k in pending;
      pending := pending - {k};
      if !IsHopByHop(k) {
        out := AddValues(out, k, h[k]);
      }
    }
  }

  method AddValues(h: Header, k: string, values: seq<string>) returns (out: Header)
    requires CanonicalKey(k) == k && k !in h && |values| > 0
    ensures out == h[k := values]
  {
    hide CanonicalKey;
    out := h;
    for i := 0 to |values|
      invariant i == 0 ==> out == h
      invariant i > 0 ==> out == h[k := values[..i]]
    {
      assert values[..i + 1] == values[..i] + [values[i]];
      out := Add(out, k, values[i]);
    }
    assert values[..|values|] == values;
  }

  method BuildHeaders(captured: Request) returns (out: Header)
    requires Canonical(captured.headers)
    ensures out == Forwarded(captured.headers, captured.srcIP)
  {
    out := CopyFields(captured.headers);
    out := Set(out, SOURCE_MARK, "ebpf-mirror-agent");
    out := Set(out, CLIENT_MARK, captured.srcIP);
  }

  /** Every parsed request has the canonical header that the copy relies on. */
  lemma ParsedHeadersCanonical(data: string)
    requires ParseOne(data).Complete?
    ensures Canonical(ParseOne(data).req.headers)
  {
    var end := Index(data, BLANK_LINE);
    AddLinesCanonical(map[], Split(data[..end], CRLF)[1..]);
  }

  /** What arrives: no hop-by-hop field, in any letter case; every other captured field with all its
      values in order; and the two marks, whatever the client sent under their names. */
  lemma ForwardedFields(h: Header, srcIP: string, name: string)
    requires Canonical(h) && IsToken(name)
    ensures var vs := ValuesOf(Forwarded(h, srcIP), CanonicalKey(name));
            vs == if Lower(name) == "x-original-client" then [srcIP]
                  else if Lower(name) == "x-mirror-source" then ["ebpf-mirror-agent"]
                  else if Lower(name) == "connection" || Lower(name) == "keep-alive"
                       || Lower(name) == "proxy-authenticate" || Lower(name) == "proxy-authorization"
                       || Lower(name) == "te" || Lower(name) == "trailers"
                       || Lower(name) == "transfer-encoding" || Lower(name) == "upgrade" then []
                  else ValuesOf(h, CanonicalKey(name))
  {
    hide Lower, IsHopByHop, Forwarded, CanonicalKey;
    ForwardedByName(h, srcIP, name);
    MarksAre();
    HopByHopIs(name);
  }

  lemma HopByHopIs(name: string)
    ensures IsHopByHop(name) <==>
            || Lower(name) == "connection" || Lower(name) == "keep-alive"
            || Lower(name) == "proxy-authenticate" || Lower(name) == "proxy-authorization"
            || Lower(name) == "te" || Lower(name) == "trailers"
            || Lower(name) == "transfer-encoding" || Lower(name) == "upgrade"
  {
    hide Lower;
  }

  lemma MarksAre()
    ensures Lower(CLIENT_MARK) == "x-original-client" && Lower(SOURCE_MARK) == "x-mirror-source"
  {
  }

  lemma ForwardedByName(h: Header, srcIP: string, name: string)
    requires Canonical(h) && IsToken(name)
    ensures var vs := ValuesOf(Forwarded(h, srcIP), CanonicalKey(name));
            vs == if Lower(name) == Lower(CLIENT_MARK) then [srcIP]
                  else if Lower(name) == Lower(SOURCE_MARK) then ["ebpf-mirror-agent"]
                  else if IsHopByHop(name) then []
                  else ValuesOf(h, CanonicalKey(name))
  {
    hide Capitalize, Lower;
    assert IsToken(SOURCE_MARK) && IsToken(CLIENT_MARK);
    KeysFoldCase(name, CLIENT_MARK);
    KeysFoldCase(name, SOURCE_MARK);
    KeysFoldCase(CLIENT_MARK, SOURCE_MARK);
    LowerOfCapitalize(name);
  }
}
