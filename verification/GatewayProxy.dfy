/** The loop that passes one request to a service's addresses, in turn, and when it asks another. */
module GatewayProxy {
  import opened GatewayBalancer

  /** What sending to an address comes to. */
  datatype Outcome = NoConnection | Timeout | Broken | Answered(status: int)

  /** What the caller gets: a service's answer, or the gateway's own refusal. */
  datatype Reply = Streamed(status: int) | Refused(status: int)

  const RETRY_STATUSES := {502, 503, 504}
  const IDEMPOTENT_METHODS := {"GET", "HEAD", "OPTIONS", "PUT", "DELETE"}

  predicate Good(o: Outcome) {
    o.Answered? && o.status !in RETRY_STATUSES
  }

  /** What the caller gets when this was the last address asked. */
  function ReplyOf(o: Outcome): Reply {
    match o
    case NoConnection => Refused(502)
    case Timeout => Refused(504)
    case Broken => Refused(502)
    case Answered(status) => Streamed(status)
  }

  /** Whether another address may be asked after this outcome. */
  predicate MovesOn(verb: string, o: Outcome) {
    o.NoConnection? || (verb in IDEMPOTENT_METHODS && !Good(o))
  }

  /** What an outcome is to the caller: nothing took the connection or it broke, nothing came in time, or an answer. */
  lemma RepliesAre(o: Outcome)
    ensures o.NoConnection? || o.Broken? ==> ReplyOf(o) == Refused(502)
    ensures o.Timeout? ==> ReplyOf(o) == Refused(504)
    ensures o.Answered? ==> ReplyOf(o) == Streamed(o.status)
  {
  }

  /** Another address may be asked when none was reached, or a repeatable request was not answered well. */
  predicate MayRepeat(verb: string, o: Outcome) {
    || o.NoConnection?
    || ((verb == "GET" || verb == "HEAD" || verb == "OPTIONS" || verb == "PUT" || verb == "DELETE")
        && (o.Timeout? || o.Broken? || (o.Answered? && (o.status == 502 || o.status == 503 || o.status == 504))))
  }

  lemma MovesOnIff(verb: string, o: Outcome)
    ensures MovesOn(verb, o) <==> MayRepeat(verb, o)
  {
  }

  /** What the balancer is told of one outcome. */
  function Marked(cooling: map<Key, int>, key: Key, o: Outcome, until: int): map<Key, int> {
    if Good(o) then cooling - {key} else cooling[key := until]
  }

  /** What the balancer is told over the first n outcomes. */
  function MarkedAll(cooling: map<Key, int>, route: string, addresses: seq<string>, would: seq<Outcome>,
                     at: seq<int>, cooldown: int, n: nat): map<Key, int>
    requires n <= |addresses| == |would| == |at|
  {
    if n == 0 then cooling
    else
      Marked(MarkedAll(cooling, route, addresses, would, at, cooldown, n - 1), (route, addresses[n - 1]),
             would[n - 1], at[n - 1] + cooldown)
  }

  /**
   The loop of Proxy._handle. `would` is what sending to each position would come
   to, `at` when; `asked` are the positions sent to, in order.
   */
  method Send(b: Balancer, route: string, addresses: seq<string>, cooldown: int, verb: string,
              would: seq<Outcome>, at: seq<int>)
    returns (reply: Reply, asked: seq<nat>)
    requires b.Valid() && |would| == |at| == |addresses|
    modifies b`cooling, b`failures
    ensures b.Valid()
    ensures |asked| <= |addresses| && forall i :: 0 <= i < |asked| ==> asked[i] == i
    ensures forall i :: 0 <= i < |asked| - 1 ==> MovesOn(verb, would[i])
    ensures addresses == [] ==> reply == Refused(503)
    ensures addresses != [] ==>
              asked != [] && reply == ReplyOf(would[|asked| - 1])
              && (|asked| == |addresses| || !MovesOn(verb, would[|asked| - 1]))
    ensures b.cooling == MarkedAll(old(b.cooling), route, addresses, would, at, cooldown, |asked|)
    ensures forall i :: 0 <= i < |asked| - 1 ==> MayRepeat(verb, would[i])
    ensures addresses != [] ==>
      var last := would[|asked| - 1];
      && (|asked| < |addresses| ==> !MayRepeat(verb, last))
      && (last.NoConnection? || last.Broken? ==> reply == Refused(502))
      && (last.Timeout? ==> reply == Refused(504))
      && (last.Answered? ==> reply == Streamed(last.status))
  {
    forall o ensures MovesOn(verb, o) <==> MayRepeat(verb, o) { MovesOnIff(verb, o); }
    hide MayRepeat;
    reply, asked := Refused(503), [];
    while |asked| < |addresses|
      invariant b.Valid() && |asked| <= |addresses|
      invariant forall i :: 0 <= i < |asked| ==> asked[i] == i && MovesOn(verb, would[i])
      invariant reply == if asked == [] then Refused(503) else ReplyOf(would[|asked| - 1])
      invariant b.cooling == MarkedAll(old(b.cooling), route, addresses, would, at, cooldown, |asked|)
      decreases |addresses| - |asked|
    {
      var position := |asked|;
      var more := position + 1 < |addresses|;
      var address := addresses[position];
      asked := asked + [position];
      ghost var told := Marked(b.cooling, (route, address), would[position], at[position] + cooldown);
      assert told == MarkedAll(old(b.cooling), route, addresses, would, at, cooldown, |asked|);
      hide MarkedAll;
      match would[position] {
        case NoConnection =>
          b.Failed(route, address, cooldown, "no connection", at[position]);
          reply := Refused(502);
        case Timeout =>
          b.Failed(route, address, cooldown, "timed out", at[position]);
          reply := Refused(504);
          if !(verb in IDEMPOTENT_METHODS && more) {
            return;
          }
        case Broken =>
          b.Failed(route, address, cooldown, "broke the connection", at[position]);
          reply := Refused(502);
          if !(verb in IDEMPOTENT_METHODS && more) {
            return;
          }
        case Answered(status) =>
          reply := Streamed(status);
          if status in RETRY_STATUSES {
            b.Failed(route, address, cooldown, "answered", at[position]);
            if !(verb in IDEMPOTENT_METHODS && more) {
              return;
            }
          } else {
            b.Answered(route, address);
            return;
          }
      }
    }
  }

  // ---------- what the caller gets, in one place ----------

  /** How many addresses are asked, and what the last of them decides. */
  function Asked(verb: string, would: seq<Outcome>): (n: nat)
    ensures n <= |would|
  {
    if would == [] then 0
    else if MovesOn(verb, would[0]) then 1 + Asked(verb, would[1..])
    else 1
  }

  function Verdict(verb: string, would: seq<Outcome>): Reply {
    var n := Asked(verb, would);
    if n == 0 then Refused(503) else ReplyOf(would[n - 1])
  }

  /** The loop's contract leaves it no choice: what it answers is the verdict. */
  lemma {:induction false} AskedIsDetermined(verb: string, would: seq<Outcome>, n: nat)
    requires n <= |would| && (would != [] ==> n > 0)
    requires forall i :: 0 <= i < n - 1 ==> MovesOn(verb, would[i])
    requires would != [] ==> n == |would| || !MovesOn(verb, would[n - 1])
    ensures n == Asked(verb, would)
  {
    if would != [] && MovesOn(verb, would[0]) && would[1..] != [] {
      var rest := would[1..];
      assert forall i :: 0 <= i < n - 1 ==> rest[i] == would[i + 1];
      AskedIsDetermined(verb, rest, n - 1);
    }
  }

  /** A method that is not idempotent never goes past an address that took the connection. */
  lemma {:induction false} NotRepeated(verb: string, would: seq<Outcome>)
    requires verb !in IDEMPOTENT_METHODS
    ensures forall i :: 0 <= i < Asked(verb, would) - 1 ==> would[i].NoConnection?
    ensures Asked(verb, would) < |would| ==> !would[Asked(verb, would) - 1].NoConnection?
  {
    if would != [] {
      NotRepeated(verb, would[1..]);
      forall i | 0 <= i < Asked(verb, would) - 1 ensures would[i].NoConnection? {
        if i > 0 {
          assert would[i] == would[1..][i - 1];
        }
      }
    }
  }

  /**
   Section 9.2.2 of RFC 9110: an idempotent request gets the first good answer in
   turn order whenever any address would give one.
   */
  lemma {:induction false} FirstGoodAnswer(verb: string, would: seq<Outcome>, k: nat)
    requires verb in IDEMPOTENT_METHODS
    requires k < |would| && Good(would[k]) && forall i :: 0 <= i < k ==> !Good(would[i])
    ensures Asked(verb, would) == k + 1 && Verdict(verb, would) == Streamed(would[k].status)
  {
    if k > 0 {
      assert would[1..][k - 1] == would[k];
      assert forall i :: 0 <= i < k - 1 ==> would[1..][i] == would[i + 1];
      FirstGoodAnswer(verb, would[1..], k - 1);
    }
  }

  /** Otherwise every address is asked, and the last one decides. */
  lemma {:induction false} NoGoodAnswer(verb: string, would: seq<Outcome>)
    requires verb in IDEMPOTENT_METHODS && forall o <- would :: !Good(o)
    ensures Asked(verb, would) == |would|
    ensures Verdict(verb, would)
         == if would == [] then Refused(503) else ReplyOf(would[|would| - 1])
  {
    if would != [] {
      assert forall o <- would[1..] :: o in would;
      NoGoodAnswer(verb, would[1..]);
    }
  }

  /** Streamed good answers come from exactly the runs in which some address asked would give one. */
  lemma {:induction false} GoodReplyIff(verb: string, would: seq<Outcome>)
    requires verb in IDEMPOTENT_METHODS
    ensures Verdict(verb, would).Streamed? && Verdict(verb, would).status !in RETRY_STATUSES
       <==> exists o <- would :: Good(o)
  {
    if exists o <- would :: Good(o) {
      var k := FirstGood(would);
      FirstGoodAnswer(verb, would, k);
    } else {
      NoGoodAnswer(verb, would);
      if would != [] {
        assert !Good(would[|would| - 1]);
      }
    }
  }

  lemma {:induction false} FirstGood(would: seq<Outcome>) returns (k: nat)
    requires exists o <- would :: Good(o)
    ensures k < |would| && Good(would[k]) && forall i :: 0 <= i < k ==> !Good(would[i])
  {
    if Good(would[0]) {
      k := 0;
    } else {
      var o :| o in would && Good(o);
      assert would == [would[0]] + would[1..];
      assert o in would[1..];
      k := FirstGood(would[1..]);
      k := k + 1;
      forall i | 0 <= i < k ensures !Good(would[i]) {
        assert i > 0 ==> would[i] == would[1..][i - 1];
      }
    }
  }

  // ---------- one request, from the turn to the marks ----------

  /**
   One request to a route whose addresses would answer as `service` says. An
   idempotent request is answered well exactly when some address of the route
   would answer it well, whichever the turn put first and whatever is cooling.
   */
  method Pass(b: Balancer, route: string, upstreams: seq<string>, cooldown: int, verb: string,
              service: string -> Outcome, now: int)
    returns (reply: Reply, order: seq<string>, n: nat)
    requires b.Valid()
    modifies b
    ensures b.Valid()
    ensures multiset(order) == multiset(upstreams) && n <= |order|
    ensures forall i :: 0 <= i < n - 1 ==> MovesOn(verb, service(order[i]))
    ensures upstreams == [] ==> reply == Refused(503)
    ensures upstreams != [] ==> n > 0 && reply == ReplyOf(service(order[n - 1]))
    ensures verb in IDEMPOTENT_METHODS ==>
      (reply.Streamed? && reply.status !in RETRY_STATUSES <==> exists a <- upstreams :: Good(service(a)))
  {
    hide Ordered, NextTurn, MarkedAll, Good;
    order := b.Order(route, upstreams, now);
    OrderIsAPermutation(upstreams, old(b.TurnOf(route)), b.LiveOf(route, upstreams, now));
    var would := seq(|order|, i requires 0 <= i < |order| => service(order[i]));
    var at := seq(|order|, i => now);
    SameAddresses(order, upstreams, service, would);
    var asked;
    reply, asked := Send(b, route, order, cooldown, verb, would, at);
    n := |asked|;
    GoodReplyOf(verb, would, n, reply);
  }

  lemma GoodReplyOf(verb: string, would: seq<Outcome>, n: nat, reply: Reply)
    requires n <= |would| && (would != [] ==> n > 0)
    requires forall i :: 0 <= i < n - 1 ==> MovesOn(verb, would[i])
    requires would != [] ==> n == |would| || !MovesOn(verb, would[n - 1])
    requires reply == if would == [] then Refused(503) else ReplyOf(would[n - 1])
    ensures verb in IDEMPOTENT_METHODS ==>
      (reply.Streamed? && reply.status !in RETRY_STATUSES <==> exists o <- would :: Good(o))
  {
    AskedIsDetermined(verb, would, n);
    if verb in IDEMPOTENT_METHODS {
      GoodReplyIff(verb, would);
    }
  }

  lemma SameAddresses(order: seq<string>, upstreams: seq<string>, service: string -> Outcome, would: seq<Outcome>)
    requires multiset(order) == multiset(upstreams)
    requires |would| == |order| && forall i :: 0 <= i < |order| ==> would[i] == service(order[i])
    ensures |order| == |upstreams|
    ensures (exists o <- would :: Good(o)) <==> (exists a <- upstreams :: Good(service(a)))
  {
    assert |multiset(order)| == |order| && |multiset(upstreams)| == |upstreams|;
    forall a ensures a in order <==> a in upstreams {
      assert a in multiset(order) <==> a in multiset(upstreams);
    }
    forall a | a in upstreams && Good(service(a)) ensures exists o <- would :: Good(o) {
      var i :| 0 <= i < |order| && order[i] == a;
      assert would[i] in would;
    }
  }

  // ---------- the marks ----------

  /**
   With distinct addresses, after a request the ones asked that answered are back
   in the turn, the others asked are cooling until their cooldown, and the rest
   of the table is as it was.
   */
  lemma {:induction false} MarksAreTheOutcomes(cooling: map<Key, int>, route: string, addresses: seq<string>,
                                               would: seq<Outcome>, at: seq<int>, cooldown: int, n: nat)
    requires n <= |addresses| == |would| == |at|
    requires forall i, j :: 0 <= i < j < |addresses| ==> addresses[i] != addresses[j]
    ensures var marked := MarkedAll(cooling, route, addresses, would, at, cooldown, n);
            && (forall i :: 0 <= i < n && Good(would[i]) ==> (route, addresses[i]) !in marked)
            && (forall i :: 0 <= i < n && !Good(would[i]) ==>
                  (route, addresses[i]) in marked && marked[(route, addresses[i])] == at[i] + cooldown)
            && (forall key: Key | key.0 != route || key.1 !in addresses[..n] ::
                  (key in marked <==> key in cooling) && (key in cooling ==> marked[key] == cooling[key]))
  {
    if n > 0 {
      MarksAreTheOutcomes(cooling, route, addresses, would, at, cooldown, n - 1);
      assert addresses[..n] == addresses[..n - 1] + [addresses[n - 1]];
    }
  }
}
