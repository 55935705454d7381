/**
  `getAllIPv4Address`: the IPv4 addresses of every network interface, in interface order
  and then entry order, reversed unless the first one is the loopback address.
 */
module Ipv4Addresses {

  /** One address entry of an interface, as `os.networkInterfaces()` reports it. */
  datatype AddressInfo = AddressInfo(family: string, address: string)

  /** One interface: its name and its address entries, in reported order. */
  datatype Interface = Interface(name: string, infos: seq<AddressInfo>)

  const Loopback := "127.0.0.1"

  predicate IsIPv4(info: AddressInfo) {
    info.family == "IPv4"
  }

  /** The addresses of the IPv4 entries of one interface, in entry order. */
  function IPv4Of(infos: seq<AddressInfo>): (r: seq<string>)
    ensures |r| <= |infos|
    decreases |infos|
  {
    if infos == [] then []
    else
      var last := infos[|infos| - 1];
      IPv4Of(infos[..|infos| - 1]) + (if IsIPv4(last) then [last.address] else [])
  }

  /** The addresses the loops push, before any reordering: interface order, then entry order. */
  function Collect(ifaces: seq<Interface>): seq<string>
    decreases |ifaces|
  {
    if ifaces == [] then []
    else Collect(ifaces[..|ifaces| - 1]) + IPv4Of(ifaces[|ifaces| - 1].infos)
  }

  /** `Array.prototype.reverse`: element `i` of the result is element `|s| - 1 - i` of `s`. */
  function Reverse<T>(s: seq<T>): (r: seq<T>)
    ensures |r| == |s|
    ensures forall i :: 0 <= i < |s| ==> r[i] == s[|s| - 1 - i]
    decreases |s|
  {
    if s == [] then [] else Reverse(s[1..]) + [s[0]]
  }

  /**
    The ordering step: keep the collected order when loopback comes first, reverse it otherwise;
    either way a permutation of the collected addresses.
   */
  function Order(collected: seq<string>): (r: seq<string>)
    ensures multiset(r) == multiset(collected)
    ensures |r| == |collected|
  {
    if |collected| > 0 && collected[0] == Loopback then collected
    else
      ReversePermutes(collected);
      Reverse(collected)
  }

  /**
    The result of `getAllIPv4Address` for the given interface map: exactly the addresses some
    interface has an IPv4 entry for, each as often as it was collected.
   */
  function AllIPv4Addresses(ifaces: seq<Interface>): (r: seq<string>)
    ensures forall a :: a in r <==> AnyCarriesIPv4(ifaces, a)
    ensures multiset(r) == multiset(Collect(ifaces))
    ensures |r| == |Collect(ifaces)|
  {
    var r := Order(Collect(ifaces));
    assert forall a :: a in r <==> AnyCarriesIPv4(ifaces, a) by {
      forall a
        ensures a in r <==> AnyCarriesIPv4(ifaces, a)
      {
        CollectMembership(ifaces, a);
        assert a in r <==> a in multiset(r);
        assert a in Collect(ifaces) <==> a in multiset(Collect(ifaces));
      }
    }
    r
  }

  /** `getAllIPv4Address` as written: nested loops pushing IPv4 addresses, then a conditional reverse. */
  method GetAllIPv4Address(ifaces: seq<Interface>) returns (addrs: seq<string>)
    ensures addrs == AllIPv4Addresses(ifaces)
  {
    addrs := [];
    var i := 0;
    while i < |ifaces|
      invariant 0 <= i <= |ifaces|
      invariant addrs == Collect(ifaces[..i])
    {
      addrs := PushIPv4(addrs, ifaces[i].infos);
      assert ifaces[..i + 1][..i] == ifaces[..i];
      i := i + 1;
    }
    assert ifaces[..i] == ifaces;
    if |addrs| == 0 || addrs[0] != Loopback {
      addrs := Reverse(addrs);
    }
  }

  /** The inner loop of `getAllIPv4Address`: push the address of every IPv4 entry of one interface. */
  method PushIPv4(start: seq<string>, infos: seq<AddressInfo>) returns (addrs: seq<string>)
    ensures addrs == start + IPv4Of(infos)
  {
    addrs := start;
    var j := 0;
    while j < |infos|
      invariant 0 <= j <= |infos|
      invariant addrs == start + IPv4Of(infos[..j])
    {
      if infos[j].family == "IPv4" {
        addrs := addrs + [infos[j].address];
      }
      assert infos[..j + 1][..j] == infos[..j];
      j := j + 1;
    }
    assert infos[..j] == infos;
  }

  /** Entry order: the IPv4 addresses of two runs of entries are those of the first, then the second. */
  lemma {:induction false} IPv4OfAppend(a: seq<AddressInfo>, b: seq<AddressInfo>)
    ensures IPv4Of(a + b) == IPv4Of(a) + IPv4Of(b)
    decreases |b|
  {
    if b != [] {
      var b' := b[..|b| - 1];
      assert (a + b)[..|a + b| - 1] == a + b';
      IPv4OfAppend(a, b');
    } else {
      assert a + b == a;
    }
  }

  /** Interface order: the addresses of two runs of interfaces are those of the first, then the second. */
  lemma {:induction false} CollectAppend(xs: seq<Interface>, ys: seq<Interface>)
    ensures Collect(xs + ys) == Collect(xs) + Collect(ys)
    decreases |ys|
  {
    if ys != [] {
      var ys' := ys[..|ys| - 1];
      var tail := IPv4Of(ys[|ys| - 1].infos);
      assert (xs + ys)[..|xs + ys| - 1] == xs + ys';
      assert (xs + ys)[|xs + ys| - 1] == ys[|ys| - 1];
      CollectAppend(xs, ys');
      assert Collect(xs + ys) == Collect(xs + ys') + tail;
      assert Collect(xs) + Collect(ys) == Collect(xs) + Collect(ys') + tail;
    } else {
      assert xs + ys == xs;
    }
  }

  /** Every IPv4 entry is kept, duplicates included, and nothing else: an all-IPv4 list gives all its addresses. */
  lemma {:induction false} IPv4OfAllIPv4(infos: seq<AddressInfo>)
    requires forall k :: 0 <= k < |infos| ==> IsIPv4(infos[k])
    ensures IPv4Of(infos) == seq(|infos|, k requires 0 <= k < |infos| => infos[k].address)
    decreases |infos|
  {
    if infos != [] {
      IPv4OfAllIPv4(infos[..|infos| - 1]);
    }
  }

  /** Entries of other families never contribute. */
  lemma {:induction false} IPv4OfNoIPv4(infos: seq<AddressInfo>)
    requires forall k :: 0 <= k < |infos| ==> !IsIPv4(infos[k])
    ensures IPv4Of(infos) == []
    decreases |infos|
  {
    if infos != [] {
      IPv4OfNoIPv4(infos[..|infos| - 1]);
    }
  }

  /** Some entry of `infos` is an IPv4 entry with address `a`. */
  predicate CarriesIPv4(infos: seq<AddressInfo>, a: string) {
    exists k :: 0 <= k < |infos| && IsIPv4(infos[k]) && infos[k].address == a
  }

  /** Some interface has an IPv4 entry with address `a`. */
  predicate AnyCarriesIPv4(ifaces: seq<Interface>, a: string) {
    exists j :: 0 <= j < |ifaces| && CarriesIPv4(ifaces[j].infos, a)
  }

  /** Whether some entry carries `a`, decided on all but the last entry and then the last. */
  lemma CarriesSplit(infos: seq<AddressInfo>, a: string)
    requires infos != []
    ensures CarriesIPv4(infos, a) <==>
      CarriesIPv4(infos[..|infos| - 1], a) || (IsIPv4(infos[|infos| - 1]) && infos[|infos| - 1].address == a)
  {
    var n := |infos| - 1;
    if CarriesIPv4(infos, a) {
      var k :| 0 <= k < |infos| && IsIPv4(infos[k]) && infos[k].address == a;
      if k < n {
        assert infos[..n][k] == infos[k];
      }
    }
    if CarriesIPv4(infos[..n], a) {
      var k :| 0 <= k < n && IsIPv4(infos[..n][k]) && infos[..n][k].address == a;
      assert infos[k] == infos[..n][k];
    }
  }

  /** Whether some interface carries `a`, decided on all but the last interface and then the last. */
  lemma AnyCarriesSplit(ifaces: seq<Interface>, a: string)
    requires ifaces != []
    ensures AnyCarriesIPv4(ifaces, a) <==>
      AnyCarriesIPv4(ifaces[..|ifaces| - 1], a) || CarriesIPv4(ifaces[|ifaces| - 1].infos, a)
  {
    var n := |ifaces| - 1;
    if AnyCarriesIPv4(ifaces, a) {
      var j :| 0 <= j < |ifaces| && CarriesIPv4(ifaces[j].infos, a);
      if j < n {
        assert ifaces[..n][j] == ifaces[j];
      }
    }
    if AnyCarriesIPv4(ifaces[..n], a) {
      var j :| 0 <= j < n && CarriesIPv4(ifaces[..n][j].infos, a);
      assert ifaces[j] == ifaces[..n][j];
    }
  }

  /** An address is among the IPv4 addresses of some entries exactly when an IPv4 entry carries it. */
  lemma {:induction false} IPv4OfMembership(infos: seq<AddressInfo>, a: string)
    ensures a in IPv4Of(infos) <==> CarriesIPv4(infos, a)
    decreases |infos|
  {
    if infos != [] {
      IPv4OfMembership(infos[..|infos| - 1], a);
      CarriesSplit(infos, a);
    }
  }

  /** An address is collected exactly when some interface has an IPv4 entry with that address. */
  lemma {:induction false} CollectMembership(ifaces: seq<Interface>, a: string)
    ensures a in Collect(ifaces) <==> AnyCarriesIPv4(ifaces, a)
    decreases |ifaces|
  {
    if ifaces != [] {
      var n := |ifaces| - 1;
      CollectMembership(ifaces[..n], a);
      IPv4OfMembership(ifaces[n].infos, a);
      AnyCarriesSplit(ifaces, a);
    }
  }

  /** Reversing twice restores the order. */
  lemma ReverseInvolution<T>(s: seq<T>)
    ensures Reverse(Reverse(s)) == s
  {
  }

  /** Reversal reorders without adding, dropping or duplicating. */
  lemma {:induction false} ReversePermutes<T>(s: seq<T>)
    ensures multiset(Reverse(s)) == multiset(s)
    decreases |s|
  {
    if s != [] {
      ReversePermutes(s[1..]);
      assert s == [s[0]] + s[1..];
    }
  }

  /** When the loopback address comes first, or last, it comes first in the result. */
  lemma LoopbackAtEitherEndFirst(collected: seq<string>)
    requires |collected| > 0
    requires collected[0] == Loopback || collected[|collected| - 1] == Loopback
    ensures Order(collected)[0] == Loopback
  {
  }

  /** Example: [10.0.0.5, 127.0.0.1] becomes [127.0.0.1, 10.0.0.5], and the converse order is kept. */
  lemma OrderExamples()
    ensures Order(["10.0.0.5", Loopback]) == [Loopback, "10.0.0.5"]
    ensures Order([Loopback, "10.0.0.5"]) == [Loopback, "10.0.0.5"]
  {
    assert ["10.0.0.5", Loopback][0] != Loopback;
  }
}
