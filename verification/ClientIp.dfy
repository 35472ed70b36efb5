/** Which client a request comes from: right-to-left resolution of a proxy chain. */
module ClientIp {

  import opened Prelude
  import opened Text

  /** Trimming and parsing one entry of the header; what counts as an address is the parser's business. */
  type Parser = string -> Option<Ip>

  predicate Foreign(parse: Parser, trusted: set<Ip>, part: string) {
    parse(part).Some? && parse(part).value !in trusted
  }

  /** Scan from the right for the first address that is not one of our proxies. */
  function Scan(parse: Parser, trusted: set<Ip>, parts: seq<string>): Option<Ip> {
    if parts == [] then None
    else
      var last := parts[|parts| - 1];
      if Foreign(parse, trusted, last) then parse(last) else Scan(parse, trusted, parts[..|parts| - 1])
  }

  function Resolve(
    parse: Parser, peer: Ip, forwardedFor: Option<string>, realIp: Option<Option<Ip>>, trusted: set<Ip>): Ip {
    if peer !in trusted then peer
    else
      var scanned := if forwardedFor.Some? then Scan(parse, trusted, Split(forwardedFor.value, ',')) else None;
      if scanned.Some? then scanned.value
      else if realIp.Some? && realIp.value.Some? then realIp.value.value
      else peer
  }

  /** The scan finds the rightmost foreign entry, and fails only when there is none. */
  lemma {:induction false} ScanFindsRightmost(parse: Parser, trusted: set<Ip>, parts: seq<string>, k: nat)
    requires k < |parts| && Foreign(parse, trusted, parts[k])
    requires forall j :: k < j < |parts| ==> !Foreign(parse, trusted, parts[j])
    ensures Scan(parse, trusted, parts) == parse(parts[k])
  {
    if k < |parts| - 1 {
      ScanFindsRightmost(parse, trusted, parts[..|parts| - 1], k);
    }
  }

  lemma {:induction false} ScanFailsIffNoneForeign(parse: Parser, trusted: set<Ip>, parts: seq<string>)
    ensures Scan(parse, trusted, parts).None? <==>
            forall k :: 0 <= k < |parts| ==> parse(parts[k]).None? || parse(parts[k]).value in trusted
  {
    if parts != [] {
      ScanFailsIffNoneForeign(parse, trusted, parts[..|parts| - 1]);
    }
  }

  lemma {:induction false} ScanIgnoresTail(parse: Parser, trusted: set<Ip>, parts: seq<string>, tail: seq<string>)
    requires forall k :: 0 <= k < |tail| ==> !Foreign(parse, trusted, tail[k])
    ensures Scan(parse, trusted, parts + tail) == Scan(parse, trusted, parts)
  {
    if tail == [] {
      assert parts + tail == parts;
    } else {
      ScanIgnoresTail(parse, trusted, parts, tail[..|tail| - 1]);
      assert (parts + tail)[..|parts + tail| - 1] == parts + tail[..|tail| - 1];
    }
  }

  lemma {:induction false} ScanIgnoresHead(parse: Parser, trusted: set<Ip>, head: seq<string>, parts: seq<string>)
    requires Scan(parse, trusted, parts).Some?
    ensures Scan(parse, trusted, head + parts) == Scan(parse, trusted, parts)
  {
    var last := |parts| - 1;
    assert (head + parts)[|head + parts| - 1] == parts[last];
    if !Foreign(parse, trusted, parts[last]) {
      ScanIgnoresHead(parse, trusted, head, parts[..last]);
      assert (head + parts)[..|head + parts| - 1] == head + parts[..last];
    }
  }

  /** Behind a trusted peer, a header with an entry that parses to an untrusted address resolves to the
      rightmost such entry, and neither text prepended by a client nor hops appended by our proxies
      change that. */
  lemma ChainResolvesToRightmostForeign(
    parse: Parser, peer: Ip, header: string, before: string, after: string,
    realIp: Option<Option<Ip>>, trusted: set<Ip>, k: nat)
    requires peer in trusted
    requires var parts := Split(header, ',');
             && k < |parts| && parse(parts[k]).Some? && parse(parts[k]).value !in trusted
             && forall j :: k < j < |parts| ==> parse(parts[j]).None? || parse(parts[j]).value in trusted
    requires var hops := Split(after, ',');
             forall j :: 0 <= j < |hops| ==> parse(hops[j]).None? || parse(hops[j]).value in trusted
    ensures var client := parse(Split(header, ',')[k]).value;
            && Resolve(parse, peer, Some(header), realIp, trusted) == client
            && Resolve(parse, peer, Some(before + [','] + header), realIp, trusted) == client
            && Resolve(parse, peer, Some(header + [','] + after), realIp, trusted) == client
  {
    var parts := Split(header, ',');
    ScanFindsRightmost(parse, trusted, parts, k);
    SplitAround(before, ',', header);
    ScanIgnoresHead(parse, trusted, Split(before, ','), parts);
    SplitAround(header, ',', after);
    ScanIgnoresTail(parse, trusted, parts, Split(after, ','));
  }

  /** An untrusted peer is its own client whatever the headers say. Behind a trusted peer and with
      no such entry, `X-Real-IP` is the client if it parses, and the peer otherwise. */
  lemma OtherwiseRealIpOrPeer(
    parse: Parser, peer: Ip, header: Option<string>, realIp: Option<Option<Ip>>, trusted: set<Ip>)
    ensures peer !in trusted ==> Resolve(parse, peer, header, realIp, trusted) == peer
    ensures peer in trusted
            && (header.Some? ==>
                  var parts := Split(header.value, ',');
                  forall k :: 0 <= k < |parts| ==> parse(parts[k]).None? || parse(parts[k]).value in trusted) ==>
              Resolve(parse, peer, header, realIp, trusted) ==
              match realIp { case Some(Some(ip)) => ip case _ => peer }
  {
    if header.Some? {
      ScanFailsIffNoneForeign(parse, trusted, Split(header.value, ','));
    }
  }
}
