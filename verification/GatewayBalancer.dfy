/** Which address of a route gets the next request: the turn, and the cooldowns. */
module GatewayBalancer {

  /** The addresses from the turn onwards, all the way round. */
  function Turned<T>(upstreams: seq<T>, start: nat): (turned: seq<T>)
    ensures |turned| == |upstreams|
  {
    if upstreams == [] then []
    else seq(|upstreams|, i requires 0 <= i < |upstreams| => upstreams[(start + i) % |upstreams|])
  }

  /** The addresses that are live, or those that are not, in the order given. */
  function Group<T(==)>(addresses: seq<T>, live: set<T>, wanted: bool): seq<T> {
    if addresses == [] then []
    else (if (addresses[0] in live) == wanted then [addresses[0]] else []) + Group(addresses[1..], live, wanted)
  }

  /** The live addresses, then the others, each in the order of the turn. */
  function Ordered<T(==)>(upstreams: seq<T>, start: nat, live: set<T>): seq<T> {
    var turned := Turned(upstreams, start);
    Group(turned, live, true) + Group(turned, live, false)
  }

  function NextTurn(start: nat, n: nat): nat {
    if n == 0 then 0 else (start + 1) % n
  }

  // ---------- a permutation ----------

  lemma TurnedIsARotation<T>(upstreams: seq<T>, start: nat)
    requires upstreams != []
    ensures var k := start % |upstreams|; Turned(upstreams, start) == upstreams[k..] + upstreams[..k]
  {
    var n := |upstreams|;
    var k := start % n;
    forall i | 0 <= i < n
      ensures Turned(upstreams, start)[i] == (upstreams[k..] + upstreams[..k])[i]
    {
      RemainderOfSum(start, i, n);
    }
  }

  lemma TurnedFromTheStart<T>(upstreams: seq<T>)
    ensures Turned(upstreams, 0) == upstreams
  {
    hide Turned;
    if upstreams != [] {
      TurnedIsARotation(upstreams, 0);
      Remainder(0, 0, 0, |upstreams|);
    }
  }

  lemma RemainderOfSum(start: nat, i: nat, n: nat)
    requires 0 < n && i < n
    ensures (start + i) % n == if start % n + i < n then start % n + i else start % n + i - n
  {
    var q, k := start / n, start % n;
    assert start == q * n + k;
    if k + i < n {
      Remainder(start + i, q, k + i, n);
    } else {
      assert (q + 1) * n == q * n + n;
      Remainder(start + i, q + 1, k + i - n, n);
    }
  }

  lemma Remainder(x: nat, q: nat, r: nat, n: nat)
    requires n > 0 && r < n && x == q * n + r
    ensures x % n == r
  {
    var d: int := x / n - q;
    assert x == (x / n) * n + x % n;
    assert d * n == (x / n) * n - q * n;
    Multiple(d, n);
  }

  lemma Multiple(d: int, n: int)
    requires n > 0
    ensures d > 0 ==> d * n >= n
    ensures d < 0 ==> d * n <= -n
  {
  }

  lemma {:induction false} GroupsSplit<T>(addresses: seq<T>, live: set<T>)
    ensures multiset(Group(addresses, live, true)) + multiset(Group(addresses, live, false)) == multiset(addresses)
  {
    if addresses != [] {
      GroupsSplit(addresses[1..], live);
      assert addresses == [addresses[0]] + addresses[1..];
    }
  }

  lemma TurnedIsAPermutation<T>(upstreams: seq<T>, start: nat)
    ensures multiset(Turned(upstreams, start)) == multiset(upstreams)
    ensures forall a :: a in Turned(upstreams, start) <==> a in upstreams
  {
    if upstreams != [] {
      TurnedIsARotation(upstreams, start);
      var k := start % |upstreams|;
      assert upstreams == upstreams[..k] + upstreams[k..];
    }
  }

  /** Whatever is cooling, every address is tried as often as it is listed. */
  lemma OrderIsAPermutation<T>(upstreams: seq<T>, start: nat, live: set<T>)
    ensures multiset(Ordered(upstreams, start, live)) == multiset(upstreams)
  {
    GroupsSplit(Turned(upstreams, start), live);
    TurnedIsAPermutation(upstreams, start);
  }

  lemma {:induction false} GroupSame<T>(addresses: seq<T>, a: set<T>, b: set<T>, wanted: bool)
    requires forall x <- addresses :: x in a <==> x in b
    ensures Group(addresses, a, wanted) == Group(addresses, b, wanted)
  {
    if addresses != [] {
      GroupSame(addresses[1..], a, b, wanted);
    }
  }

  // ---------- live first, each group in turn ----------

  /** x stands before y. */
  predicate Before<T(==)>(addresses: seq<T>, x: T, y: T) {
    exists i, j :: 0 <= i < j < |addresses| && addresses[i] == x && addresses[j] == y
  }

  lemma {:induction false} GroupHolds<T>(addresses: seq<T>, live: set<T>, wanted: bool)
    ensures forall x :: x in Group(addresses, live, wanted) <==> x in addresses && (x in live) == wanted
  {
    if addresses != [] {
      GroupHolds(addresses[1..], live, wanted);
      assert addresses == [addresses[0]] + addresses[1..];
    }
  }

  lemma BeforeInHeadTail<T>(head: T, tail: seq<T>, x: T, y: T)
    ensures Before([head] + tail, x, y) <==> (x == head && y in tail) || Before(tail, x, y)
  {
    var s := [head] + tail;
    if Before(s, x, y) {
      var i, j :| 0 <= i < j < |s| && s[i] == x && s[j] == y;
      if i == 0 {
        assert tail[j - 1] == y;
      } else {
        assert tail[i - 1] == x && tail[j - 1] == y;
      }
    }
    if x == head && y in tail {
      var j :| 0 <= j < |tail| && tail[j] == y;
      assert s[0] == x && s[j + 1] == y;
    }
    if Before(tail, x, y) {
      var i, j :| 0 <= i < j < |tail| && tail[i] == x && tail[j] == y;
      assert s[i + 1] == x && s[j + 1] == y;
    }
  }

  lemma {:induction false} GroupKeepsOrder<T>(addresses: seq<T>, live: set<T>, wanted: bool, x: T, y: T)
    requires (x in live) == wanted && (y in live) == wanted
    ensures Before(Group(addresses, live, wanted), x, y) <==> Before(addresses, x, y)
  {
    hide Before;
    if addresses == [] {
      assert Group(addresses, live, wanted) == addresses;
    } else {
      var head, tail := addresses[0], addresses[1..];
      assert addresses == [head] + tail;
      GroupKeepsOrder(tail, live, wanted, x, y);
      GroupHolds(tail, live, wanted);
      BeforeInHeadTail(head, tail, x, y);
      if (head in live) == wanted {
        BeforeInHeadTail(head, Group(tail, live, wanted), x, y);
      } else {
        assert Group(addresses, live, wanted) == Group(tail, live, wanted);
      }
    }
  }

  /** Every live address before every cooling one. */
  lemma LiveBeforeCooling<T>(upstreams: seq<T>, start: nat, live: set<T>, x: T, y: T)
    requires x in upstreams && y in upstreams && x in live && y !in live
    ensures Before(Ordered(upstreams, start, live), x, y) && !Before(Ordered(upstreams, start, live), y, x)
  {
    hide Turned;
    var turned := Turned(upstreams, start);
    TurnedIsAPermutation(upstreams, start);
    GroupHolds(turned, live, true);
    GroupHolds(turned, live, false);
    var front, back := Group(turned, live, true), Group(turned, live, false);
    BeforeInSum(front, back, x, y);
    BeforeInSum(front, back, y, x);
    assert Before(front, y, x) ==> y in front;
    assert Before(back, y, x) ==> x in back;
  }

  /** Within a group the turn decides. */
  lemma GroupsKeepTheTurn<T>(upstreams: seq<T>, start: nat, live: set<T>, x: T, y: T)
    requires x in live <==> y in live
    ensures Before(Ordered(upstreams, start, live), x, y) <==> Before(Turned(upstreams, start), x, y)
  {
    var turned, here := Turned(upstreams, start), x in live;
    var group, others := Group(turned, live, here), Group(turned, live, !here);
    GroupHolds(turned, live, here);
    GroupHolds(turned, live, !here);
    GroupKeepsOrder(turned, live, here, x, y);
    BeforeInSum(Group(turned, live, true), Group(turned, live, false), x, y);
    assert Before(others, x, y) ==> x in others;
  }

  lemma BeforeInSum<T>(a: seq<T>, b: seq<T>, x: T, y: T)
    ensures Before(a + b, x, y) <==> Before(a, x, y) || Before(b, x, y) || (x in a && y in b)
  {
    var s := a + b;
    if Before(s, x, y) {
      var i, j :| 0 <= i < j < |s| && s[i] == x && s[j] == y;
      if j < |a| {
        assert a[i] == x && a[j] == y;
      } else if i < |a| {
        assert a[i] == x && b[j - |a|] == y;
      } else {
        assert b[i - |a|] == x && b[j - |a|] == y;
      }
    }
    if Before(a, x, y) {
      var i, j :| 0 <= i < j < |a| && a[i] == x && a[j] == y;
      assert s[i] == x && s[j] == y;
    }
    if Before(b, x, y) {
      var i, j :| 0 <= i < j < |b| && b[i] == x && b[j] == y;
      assert s[|a| + i] == x && s[|a| + j] == y;
    }
    if x in a && y in b {
      var i :| 0 <= i < |a| && a[i] == x;
      var j :| 0 <= j < |b| && b[j] == y;
      assert s[i] == x && s[|a| + j] == y;
    }
  }

  // ---------- round robin ----------

  /** The turn after this many calls for a list of n addresses. */
  function TurnAfter(start: nat, n: nat, calls: nat): nat {
    if calls == 0 then start else NextTurn(TurnAfter(start, n, calls - 1), n)
  }

  lemma {:induction false} TurnAfterIs(start: nat, n: nat, calls: nat)
    requires 0 < n
    ensures TurnAfter(start, n, calls) % n == (start + calls) % n
  {
    if calls > 0 {
      TurnAfterIs(start, n, calls - 1);
      var t := TurnAfter(start, n, calls - 1);
      SameStep(t, start + calls - 1, n);
      RemainderTwice(t + 1, n);
    }
  }

  lemma SameStep(x: nat, y: nat, n: nat)
    requires 0 < n && x % n == y % n
    ensures (x + 1) % n == (y + 1) % n
  {
    if n > 1 {
      RemainderOfSum(x, 1, n);
      RemainderOfSum(y, 1, n);
    }
  }

  lemma RemainderTwice(x: nat, n: nat)
    requires 0 < n
    ensures (x % n) % n == x % n
  {
    Remainder(x % n, 0, x % n, n);
  }

  lemma TurnedAt<T>(upstreams: seq<T>, start: nat, i: nat)
    requires i < |upstreams|
    ensures Turned(upstreams, start)[i] == upstreams[(start + i) % |upstreams|]
  {
  }

  /** The address that comes first in each of n consecutive calls with every address live. */
  function Firsts<T>(upstreams: seq<T>, start: nat, calls: nat): seq<T>
    requires upstreams != []
  {
    if calls == 0 then []
    else
      Firsts(upstreams, start, calls - 1)
      + [Turned(upstreams, TurnAfter(start, |upstreams|, calls - 1))[0]]
  }

  /** Over n consecutive calls for n live addresses each comes first exactly once, whatever the turn was. */
  lemma EachComesFirstOnce<T>(upstreams: seq<T>, start: nat)
    requires upstreams != []
    ensures multiset(Firsts(upstreams, start, |upstreams|)) == multiset(upstreams)
  {
    FirstsAreTheTurn(upstreams, start, |upstreams|);
    assert Turned(upstreams, start)[..|upstreams|] == Turned(upstreams, start);
    TurnedIsAPermutation(upstreams, start);
  }

  /** With no address cooling the answer is the turn itself, so the first of the turn comes first. */
  lemma AllLiveAnswersTheTurn<T>(upstreams: seq<T>, start: nat, live: set<T>)
    requires forall a <- upstreams :: a in live
    ensures Ordered(upstreams, start, live) == Turned(upstreams, start)
  {
    TurnedIsAPermutation(upstreams, start);
    GroupAll(Turned(upstreams, start), live);
  }

  lemma {:induction false} GroupAll<T>(addresses: seq<T>, live: set<T>)
    requires forall a <- addresses :: a in live
    ensures Group(addresses, live, true) == addresses && Group(addresses, live, false) == []
  {
    if addresses != [] {
      GroupAll(addresses[1..], live);
    }
  }

  lemma {:induction false} FirstsAreTheTurn<T>(upstreams: seq<T>, start: nat, calls: nat)
    requires upstreams != [] && calls <= |upstreams|
    ensures Firsts(upstreams, start, calls) == Turned(upstreams, start)[..calls]
  {
    hide Turned;
    if calls > 0 {
      FirstsAreTheTurn(upstreams, start, calls - 1);
      FirstOfTurn(upstreams, start, calls - 1);
    }
  }

  lemma FirstOfTurn<T>(upstreams: seq<T>, start: nat, calls: nat)
    requires calls < |upstreams|
    ensures Turned(upstreams, TurnAfter(start, |upstreams|, calls))[0] == Turned(upstreams, start)[calls]
  {
    hide Turned;
    TurnAfterIs(start, |upstreams|, calls);
    TurnedAt(upstreams, TurnAfter(start, |upstreams|, calls), 0);
    TurnedAt(upstreams, start, calls);
  }

  lemma NoGroup<T>(addresses: seq<T>, live: set<T>, wanted: bool)
    ensures Group(addresses[|addresses|..], live, wanted) == [] && addresses[0..] == addresses
  {
  }

  lemma GroupFrom<T>(addresses: seq<T>, live: set<T>, wanted: bool, i: nat)
    requires i < |addresses|
    ensures Group(addresses[i..], live, wanted)
         == (if (addresses[i] in live) == wanted then [addresses[i]] else []) + Group(addresses[i + 1..], live, wanted)
  {
    assert addresses[i..][1..] == addresses[i + 1..];
  }

  // ---------- the object ----------

  type Key = (string, string)

  class Balancer {
    var turn: map<string, nat>
    var cooling: map<Key, int>
    var failures: map<Key, string>

    ghost predicate Valid()
      reads this
    {
      cooling.Keys == failures.Keys
    }

    constructor ()
      ensures Valid() && turn == map[] && cooling == map[]
    {
      turn, cooling, failures := map[], map[], map[];
    }

    function TurnOf(route: string): nat
      reads this
    {
      if route in turn then turn[route] else 0
    }

    predicate Live(route: string, address: string, now: int)
      reads this`cooling
    {
      (if (route, address) in cooling then cooling[(route, address)] else 0) <= now
    }

    function LiveOf(route: string, upstreams: seq<string>, now: int): set<string>
      reads this`cooling
    {
      set a <- upstreams | Live(route, a, now)
    }

    /** The addresses to try for one request; the turn of this route moves on, and no other's. */
    method Order(route: string, upstreams: seq<string>, now: int) returns (order: seq<string>)
      requires Valid()
      modifies this`turn
      ensures Valid()
      ensures order == Ordered(upstreams, old(TurnOf(route)), LiveOf(route, upstreams, now))
      ensures turn == old(turn)[route := NextTurn(old(TurnOf(route)), |upstreams|)]
      ensures upstreams == [] ==> turn[route] == 0
      ensures forall x <- upstreams, y <- upstreams :: Live(route, x, now) && !Live(route, y, now) ==>
                Before(order, x, y) && !Before(order, y, x)
      ensures route !in old(turn) && (forall a <- upstreams :: Live(route, a, now)) ==> order == upstreams
    {
      forall x, y | x in upstreams && y in upstreams && Live(route, x, now) && !Live(route, y, now)
        ensures Before(Ordered(upstreams, TurnOf(route), LiveOf(route, upstreams, now)), x, y)
        ensures !Before(Ordered(upstreams, TurnOf(route), LiveOf(route, upstreams, now)), y, x)
      {
        LiveBeforeCooling(upstreams, TurnOf(route), LiveOf(route, upstreams, now), x, y);
      }
      hide Before;
      if route !in turn && forall a <- upstreams :: Live(route, a, now) {
        AllLiveAnswersTheTurn(upstreams, 0, LiveOf(route, upstreams, now));
        TurnedFromTheStart(upstreams);
      }
      var start := TurnOf(route);
      turn := turn[route := NextTurn(start, |upstreams|)];
      var turned := TurnFrom(upstreams, start);
      var live := Grouped(route, turned, now, true);
      var cooling := Grouped(route, turned, now, false);
      order := live + cooling;
      hide Turned, NextTurn;
      TurnedIsAPermutation(upstreams, start);
      ghost var here := LiveOf(route, upstreams, now);
      GroupSame(turned, here, LiveOf(route, turned, now), true);
      GroupSame(turned, here, LiveOf(route, turned, now), false);
    }

    /**
     One request after another for a route none of whose addresses cools: over as
     many requests as there are addresses each comes first exactly once, and over
     any number they come first in turn.
     */
    method Requests(route: string, upstreams: seq<string>, nows: seq<int>) returns (firsts: seq<string>)
      requires Valid() && upstreams != []
      requires forall now <- nows, a <- upstreams :: Live(route, a, now)
      modifies this`turn
      ensures Valid()
      ensures firsts == Firsts(upstreams, old(TurnOf(route)), |nows|)
      ensures |nows| == |upstreams| ==> multiset(firsts) == multiset(upstreams)
      ensures TurnOf(route) == TurnAfter(old(TurnOf(route)), |upstreams|, |nows|)
      ensures turn.Keys <= old(turn).Keys + {route} && forall r <- old(turn) :: r != route ==> r in turn && turn[r] == old(turn)[r]
    {
      hide Turned, Ordered, NextTurn;
      firsts := [];
      ghost var start := TurnOf(route);
      EachComesFirstOnce(upstreams, start);
      while |firsts| < |nows|
        invariant |firsts| <= |nows|
        invariant firsts == Firsts(upstreams, start, |firsts|)
        invariant TurnOf(route) == TurnAfter(start, |upstreams|, |firsts|)
        invariant Valid() && cooling == old(cooling)
        invariant turn.Keys <= old(turn).Keys + {route}
        invariant forall r <- old(turn) :: r != route ==> r in turn && turn[r] == old(turn)[r]
      {
        var now := nows[|firsts|];
        assert now in nows;
        AllLiveAnswersTheTurn(upstreams, TurnOf(route), LiveOf(route, upstreams, now));
        var order := Order(route, upstreams, now);
        firsts := firsts + [order[0]];
      }
    }

    static method TurnFrom(upstreams: seq<string>, start: nat) returns (turned: seq<string>)
      ensures turned == Turned(upstreams, start)
    {
      turned := [];
      while |turned| < |upstreams|
        invariant |turned| <= |upstreams|
        invariant turned == Turned(upstreams, start)[..|turned|]
      {
        hide Turned;
        TurnedAt(upstreams, start, |turned|);
        turned := turned + [upstreams[(start + |turned|) % |upstreams|]];
      }
    }

    method Grouped(route: string, turned: seq<string>, now: int, live: bool) returns (group: seq<string>)
      ensures group == Group(turned, LiveOf(route, turned, now), live)
    {
      hide Group;
      group := [];
      ghost var here := LiveOf(route, turned, now);
      NoGroup(turned, here, live);
      var i := 0;
      while i < |turned|
        invariant 0 <= i <= |turned|
        invariant group + Group(turned[i..], here, live) == Group(turned, here, live)
      {
        assert turned[i] in turned && (turned[i] in here <==> Live(route, turned[i], now));
        GroupFrom(turned, here, live, i);
        if Live(route, turned[i], now) == live {
          group := group + [turned[i]];
        }
        i := i + 1;
      }
    }

    method Failed(route: string, address: string, cooldown: int, reason: string, now: int)
      requires Valid()
      modifies this`cooling, this`failures
      ensures Valid()
      ensures cooling == old(cooling)[(route, address) := now + cooldown]
      ensures failures == old(failures)[(route, address) := reason]
      ensures forall t :: Live(route, address, t) <==> t >= now + cooldown
      ensures forall r, a, t :: r != route || a != address ==> (Live(r, a, t) <==> old(Live(r, a, t)))
    {
      cooling := cooling[(route, address) := now + cooldown];
      failures := failures[(route, address) := reason];
    }

    /** An address answered: it is back in the turn at once. */
    method Answered(route: string, address: string)
      requires Valid()
      modifies this`cooling, this`failures
      ensures Valid()
      ensures cooling == old(cooling) - {(route, address)}
      ensures failures == old(failures) - {(route, address)}
      ensures forall t :: t >= 0 ==> Live(route, address, t)
      ensures forall r, a, t :: r != route || a != address ==> (Live(r, a, t) <==> old(Live(r, a, t)))
    {
      cooling := cooling - {(route, address)};
      failures := failures - {(route, address)};
    }
  }
}
