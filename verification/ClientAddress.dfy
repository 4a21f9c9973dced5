/**
 Attribution of a request to an address (dashboard/api/internal/httpapi/support.go): the forwarded
 list is walked from the right, and the first address outside the trusted networks wins. Address
 parsing, rendering and prefix containment belong to another library and are parameters.
 */
module ClientAddress {
  import opened Wrappers
  import opened Text

  /** What `net/netip` offers, over any types of address and network. */
  datatype Net<!Addr, !Prefix> = Net(
    parse: string -> Option<Addr>,
    render: Addr -> string,
    within: (Prefix, Addr) -> bool)

  // ----- text ------------------------------------------------------------------------------

  /** The pieces between commas: at least one, possibly empty. */
  function Split(s: string): (pieces: seq<string>)
    ensures |pieces| >= 1
  {
    if s == [] then [""] else Prefixed(s[0], Split(s[1..]))
  }

  function Join(pieces: seq<string>): string
    requires pieces != []
  {
    if |pieces| == 1 then pieces[0] else pieces[0] + "," + Join(pieces[1..])
  }

  /** Splitting loses nothing and leaves no comma in a piece. */
  lemma {:induction false} SplitPieces(s: string)
    ensures Join(Split(s)) == s
    ensures forall i :: 0 <= i < |Split(s)| ==> ',' !in Split(s)[i]
  {
    if s == [] {
    } else {
      var rest := Split(s[1..]);
      SplitPieces(s[1..]);
      if s[0] == ',' {
        assert ([""] + rest)[1..] == rest;
      } else {
        var pieces := [[s[0]] + rest[0]] + rest[1..];
        assert pieces[1..] == rest[1..];
        assert Join(pieces) == [s[0]] + Join(rest);
      }
    }
  }

  /** One character in front of split text. */
  function Prefixed(c: char, pieces: seq<string>): seq<string>
    requires pieces != []
  {
    if c == ',' then [""] + pieces else [[c] + pieces[0]] + pieces[1..]
  }

  lemma PrefixedAppend(c: char, xs: seq<string>, ys: seq<string>)
    requires xs != []
    ensures Prefixed(c, xs + ys) == Prefixed(c, xs) + ys
  {
    assert (xs + ys)[1..] == xs[1..] + ys;
  }

  lemma TailOf(a: string, b: string)
    requires a != []
    ensures (a + "," + b)[0] == a[0] && (a + "," + b)[1..] == a[1..] + "," + b
  {
  }

  /** What stands before a comma cannot change the pieces after it. */
  lemma {:induction false} SplitAtComma(a: string, b: string)
    ensures Split(a + "," + b) == Split(a) + Split(b)
  {
    if a == [] {
      assert ("" + "," + b)[1..] == b;
    } else {
      TailOf(a, b);
      SplitAtComma(a[1..], b);
      PrefixedAppend(a[0], Split(a[1..]), Split(b));
    }
  }

  // ----- the walk --------------------------------------------------------------------------

  predicate Trusts<Addr, Prefix>(net: Net<Addr, Prefix>, trusted: seq<Prefix>, a: Addr) {
    exists i :: 0 <= i < |trusted| && net.within(trusted[i], a)
  }

  method Contains<Addr, Prefix>(net: Net<Addr, Prefix>, trusted: seq<Prefix>, a: Addr) returns (found: bool)
    ensures found == Trusts(net, trusted, a)
  {
    for i := 0 to |trusted|
      invariant forall j :: 0 <= j < i ==> !net.within(trusted[j], a)
    {
      if net.within(trusted[i], a) {
        return true;
      }
    }
    return false;
  }

  /** An entry the walk steps over: blank, or an address inside the trusted networks. */
  predicate Passed<Addr, Prefix>(net: Net<Addr, Prefix>, trusted: seq<Prefix>, entry: string) {
    var candidate := TrimSpace(entry);
    candidate == "" || (net.parse(candidate).Some? && Trusts(net, trusted, net.parse(candidate).value))
  }

  /** What an entry that ends the walk stands for: the peer when malformed, else its own address. */
  function Verdict<Addr, Prefix>(net: Net<Addr, Prefix>, peer: string, entry: string): string {
    match net.parse(TrimSpace(entry))
    case None => peer
    case Some(a) => net.render(a)
  }

  /** The rightmost entry that ends the walk decides; the peer stands in when there is none. */
  ghost predicate Decided<Addr, Prefix>(net: Net<Addr, Prefix>, trusted: seq<Prefix>, peer: string,
                                        entries: seq<string>, ip: string) {
    || (ip == peer && forall i :: 0 <= i < |entries| ==> Passed(net, trusted, entries[i]))
    || exists k :: 0 <= k < |entries| && !Passed(net, trusted, entries[k]) && ip == Verdict(net, peer, entries[k])
         && forall i :: k < i < |entries| ==> Passed(net, trusted, entries[i])
  }

  /** Whether the header is read at all: the peer itself has to be a trusted address. */
  predicate Believed<Addr, Prefix>(net: Net<Addr, Prefix>, trusted: seq<Prefix>, peer: string) {
    net.parse(peer).Some? && Trusts(net, trusted, net.parse(peer).value)
  }

  ghost predicate Attributed<Addr, Prefix>(net: Net<Addr, Prefix>, trusted: seq<Prefix>, peer: string,
                                           header: string, ip: string) {
    if Believed(net, trusted, peer) then Decided(net, trusted, peer, Split(header), ip) else ip == peer
  }

  method ClientIP<Addr, Prefix>(net: Net<Addr, Prefix>, trusted: seq<Prefix>, peer: string, header: string)
    returns (ip: string)
    ensures Attributed(net, trusted, peer, header, ip)
  {
    if |trusted| == 0 {
      return peer;
    }
    var addr := net.parse(peer);
    if addr.None? {
      return peer;
    }
    var known := Contains(net, trusted, addr.value);
    if !known {
      return peer;
    }
    var forwarded := Split(header);
    var i := |forwarded|;
    while i > 0
      invariant 0 <= i <= |forwarded|
      invariant forall j :: i <= j < |forwarded| ==> Passed(net, trusted, forwarded[j])
    {
      i := i - 1;
      var candidate := TrimSpace(forwarded[i]);
      if candidate == "" {
        continue;
      }
      var parsed := net.parse(candidate);
      if parsed.None? {
        return peer;
      }
      var inside := Contains(net, trusted, parsed.value);
      if !inside {
        return net.render(parsed.value);
      }
    }
    return peer;
  }

  // ----- what a client can and cannot do ---------------------------------------------------

  lemma DecidedUnique<Addr, Prefix>(net: Net<Addr, Prefix>, trusted: seq<Prefix>, peer: string,
                                    entries: seq<string>, ip: string, ip': string)
    requires Decided(net, trusted, peer, entries, ip) && Decided(net, trusted, peer, entries, ip')
    ensures ip == ip'
  {
  }

  /** Entries to the left of one that ends the walk have no influence, whatever they are. */
  lemma LeftIgnored<Addr, Prefix>(net: Net<Addr, Prefix>, trusted: seq<Prefix>, peer: string,
                                  left: seq<string>, left': seq<string>, right: seq<string>, k: nat, ip: string)
    requires k < |right| && !Passed(net, trusted, right[k])
    requires Decided(net, trusted, peer, left + right, ip)
    ensures Decided(net, trusted, peer, left' + right, ip)
  {
    var all, all' := left + right, left' + right;
    assert all[|left| + k] == right[k];
    var p :| 0 <= p < |all| && !Passed(net, trusted, all[p]) && ip == Verdict(net, peer, all[p])
      && forall i :: p < i < |all| ==> Passed(net, trusted, all[i]);
    var q := |left'| + p - |left|;
    assert all'[q] == all[p];
    forall i | q < i < |all'| ensures Passed(net, trusted, all'[i]) {
      assert all'[i] == all[i - |left'| + |left|];
    }
  }

  /**
   All header text left of an entry that is malformed or untrusted is ignored: a header that holds
   such an entry is attributed alike whatever is put in front of it.
   */
  lemma PrefixIgnored<Addr, Prefix>(net: Net<Addr, Prefix>, trusted: seq<Prefix>, peer: string,
                                    before: string, header: string, k: nat, ip: string)
    requires k < |Split(header)| && !Passed(net, trusted, Split(header)[k])
    ensures Attributed(net, trusted, peer, before + "," + header, ip) <==> Attributed(net, trusted, peer, header, ip)
  {
    SplitAtComma(before, header);
    var left, right := Split(before), Split(header);
    assert [] + right == right;
    if Decided(net, trusted, peer, left + right, ip) {
      LeftIgnored(net, trusted, peer, left, [], right, k, ip);
    }
    if Decided(net, trusted, peer, right, ip) {
      LeftIgnored(net, trusted, peer, [], left, right, k, ip);
    }
  }

  lemma {:induction false} SplitWithoutComma(s: string)
    requires ',' !in s
    ensures Split(s) == [s]
  {
    if s == [] {
    } else {
      SplitWithoutComma(s[1..]);
      assert s == [s[0]] + s[1..];
    }
  }

  /** The address a trusted edge appends is the answer, whatever the client wrote before it. */
  lemma EdgeAppends<Addr, Prefix>(net: Net<Addr, Prefix>, trusted: seq<Prefix>, peer: string,
                                  forged: string, appended: string, a: Addr, ip: string)
    requires Believed(net, trusted, peer) && ',' !in appended
    requires TrimSpace(appended) != "" && net.parse(TrimSpace(appended)) == Some(a) && !Trusts(net, trusted, a)
    requires Attributed(net, trusted, peer, forged + "," + appended, ip)
    ensures ip == net.render(a)
  {
    SplitAtComma(forged, appended);
    SplitWithoutComma(appended);
    var entries := Split(forged) + [appended];
    assert entries[|entries| - 1] == appended && !Passed(net, trusted, appended);
    assert Decided(net, trusted, peer, entries, net.render(a));
    DecidedUnique(net, trusted, peer, entries, ip, net.render(a));
  }

  /** A walk through trusted hops only comes back to whoever stands left of them. */
  lemma TrustedHopsPass<Addr, Prefix>(net: Net<Addr, Prefix>, trusted: seq<Prefix>, peer: string,
                                      header: string, hop: string, ip: string, ip': string)
    requires ',' !in hop && Passed(net, trusted, hop)
    requires Attributed(net, trusted, peer, header, ip) && Attributed(net, trusted, peer, header + "," + hop, ip')
    ensures ip == ip'
  {
    if Believed(net, trusted, peer) {
      SplitAtComma(header, hop);
      SplitWithoutComma(hop);
      var short, long := Split(header), Split(header) + [hop];
      if forall i :: 0 <= i < |short| ==> Passed(net, trusted, short[i]) {
        assert forall i :: 0 <= i < |long| ==> Passed(net, trusted, long[i]);
      } else {
        var k :| 0 <= k < |short| && !Passed(net, trusted, short[k]) && ip == Verdict(net, peer, short[k])
          && forall i :: k < i < |short| ==> Passed(net, trusted, short[i]);
        assert long[k] == short[k];
        assert forall i :: k < i < |long| ==> Passed(net, trusted, long[i]);
      }
      assert Decided(net, trusted, peer, long, ip);
      DecidedUnique(net, trusted, peer, long, ip, ip');
    }
  }

  /** An entry that spells an address outside the trusted networks, rendered as ip. */
  predicate Spells<Addr, Prefix>(net: Net<Addr, Prefix>, trusted: seq<Prefix>, entry: string, ip: string) {
    var parsed := net.parse(TrimSpace(entry));
    parsed.Some? && !Trusts(net, trusted, parsed.value) && ip == net.render(parsed.value)
  }

  ghost predicate SpelledIn<Addr, Prefix>(net: Net<Addr, Prefix>, trusted: seq<Prefix>, entries: seq<string>, ip: string) {
    exists k :: 0 <= k < |entries| && Spells(net, trusted, entries[k], ip)
  }

  /** Every answer is the peer or an address outside the trusted networks that the header spells. */
  lemma NeverTrusted<Addr, Prefix>(net: Net<Addr, Prefix>, trusted: seq<Prefix>, peer: string, header: string, ip: string)
    requires Attributed(net, trusted, peer, header, ip)
    ensures ip == peer || SpelledIn(net, trusted, Split(header), ip)
  {
    if ip != peer {
      var entries := Split(header);
      var k :| 0 <= k < |entries| && !Passed(net, trusted, entries[k]) && ip == Verdict(net, peer, entries[k])
        && forall i :: k < i < |entries| ==> Passed(net, trusted, entries[i]);
      assert Spells(net, trusted, entries[k], ip);
    }
  }

  /** With nobody trusted the header is never read. */
  lemma TrustNobody<Addr, Prefix>(net: Net<Addr, Prefix>, peer: string, header: string, ip: string)
    requires Attributed(net, [], peer, header, ip)
    ensures ip == peer
  {
  }

  // ----- the same in plain terms -----------------------------------------------------------

  /** A blank entry appended on the right is stepped over. */
  lemma BlankSteppedOver<Addr, Prefix>(net: Net<Addr, Prefix>, trusted: seq<Prefix>, peer: string,
                                       header: string, blank: string, ip: string, ip': string)
    requires Blank(blank)
    requires Attributed(net, trusted, peer, header, ip) && Attributed(net, trusted, peer, header + "," + blank, ip')
    ensures ip == ip'
  {
    BlankTrimsAway(blank);
    TrustedHopsPass(net, trusted, peer, header, blank, ip, ip');
  }

  /** So is an address inside one of the trusted networks. */
  lemma TrustedSteppedOver<Addr, Prefix>(net: Net<Addr, Prefix>, trusted: seq<Prefix>, peer: string,
                                         header: string, hop: string, a: Addr, i: nat, ip: string, ip': string)
    requires ',' !in hop && net.parse(TrimSpace(hop)) == Some(a) && i < |trusted| && net.within(trusted[i], a)
    requires Attributed(net, trusted, peer, header, ip) && Attributed(net, trusted, peer, header + "," + hop, ip')
    ensures ip == ip'
  {
    TrustedHopsPass(net, trusted, peer, header, hop, ip, ip');
  }

  /** A malformed entry at the right end makes the peer the answer, whatever stands before it. */
  lemma MalformedGivesPeer<Addr, Prefix>(net: Net<Addr, Prefix>, trusted: seq<Prefix>, peer: string,
                                         before: string, entry: string, ip: string)
    requires ',' !in entry && TrimSpace(entry) != "" && net.parse(TrimSpace(entry)) == None
    requires Attributed(net, trusted, peer, before + "," + entry, ip)
    ensures ip == peer
  {
    SplitAtComma(before, entry);
    SplitWithoutComma(entry);
    if Believed(net, trusted, peer) {
      var entries := Split(before) + [entry];
      assert entries[|entries| - 1] == entry && !Passed(net, trusted, entry);
      assert Decided(net, trusted, peer, entries, peer);
      DecidedUnique(net, trusted, peer, entries, ip, peer);
    }
  }
}
