/**
 Flow control on the receive side of the PPP driver.  A frame for a network protocol goes to
 that protocol's queue, or waits on the control queue while the protocol is blocked.  Whatever
 the queues above answer and in whatever order the service procedures run, the frames of each
 protocol leave in the order they came in.
 */
module ReceivePath {
  import opened Options

  datatype Msg = Msg(proto: nat, data: nat)

  /** What became of a message: sent upward, or dropped for want of memory. */
  datatype Fate = Sent(m: Msg) | Dropped(m: Msg)

  function Msgs(fates: seq<Fate>): (ms: seq<Msg>)
    ensures |ms| == |fates| && forall i :: 0 <= i < |ms| ==> ms[i] == fates[i].m
  {
    seq(|fates|, i requires 0 <= i < |fates| => fates[i].m)
  }

  /** The stream a protocol's frames go to: the first that is bound to it. */
  function Dest(saps: seq<nat>, proto: nat): (d: Option<nat>)
    ensures d.Some? ==> d.value < |saps| && saps[d.value] == proto && proto !in saps[..d.value]
    ensures d.None? ==> proto !in saps
  {
    if saps == [] then None
    else if saps[0] == proto then Some(0)
    else
      var d := Dest(saps[1..], proto);
      assert saps == [saps[0]] + saps[1..];
      if d.None? then None
      else
        assert saps[..d.value + 1] == [saps[0]] + saps[1..][..d.value];
        Some(d.value + 1)
  }

  /** Which stream the driver chooses for a message: data protocols only. */
  function Chosen(saps: seq<nat>, m: Msg): (d: Option<nat>)
    ensures d.Some? ==> d.value < |saps|
  {
    if m.proto < 0x8000 then Dest(saps, m.proto) else None
  }

  /** The messages for one stream, or for pppd, in order. */
  function For(saps: seq<nat>, q: seq<Msg>, d: Option<nat>): seq<Msg> {
    if q == [] then []
    else
      var front := For(saps, q[..|q| - 1], d);
      var m := q[|q| - 1];
      if Chosen(saps, m) == d then front + [m] else front
  }

  lemma ForPut(saps: seq<nat>, q: seq<Msg>, m: Msg, d: Option<nat>)
    ensures For(saps, q + [m], d) == For(saps, q, d) + (if Chosen(saps, m) == d then [m] else [])
  {
    assert (q + [m])[..|q|] == q;
  }

  lemma {:induction false} ForHead(saps: seq<nat>, q: seq<Msg>, d: Option<nat>)
    requires q != []
    ensures For(saps, q, d) == (if Chosen(saps, q[0]) == d then [q[0]] else []) + For(saps, q[1..], d)
  {
    var n := |q| - 1;
    if n > 0 {
      assert q[..n][0] == q[0] && q[..n][1..] == q[1..][..n - 1];
      ForHead(saps, q[..n], d);
    }
  }

  lemma {:induction false} NoneFor(saps: seq<nat>, q: seq<Msg>, d: Option<nat>)
    requires forall i :: 0 <= i < |q| ==> Chosen(saps, q[i]) != d
    ensures For(saps, q, d) == []
  {
    if q != [] {
      NoneFor(saps, q[..|q| - 1], d);
    }
  }

  /** Messages for a stream wait on the control queue only while the stream is blocked. */
  ghost predicate Waiting(saps: seq<nat>, q: seq<Msg>, rblocked: seq<bool>) {
    && |rblocked| == |saps|
    && forall i :: 0 <= i < |q| && Chosen(saps, q[i]).Some? ==> rblocked[Chosen(saps, q[i]).value]
  }

  /** Nothing of a stream's is lost, repeated or out of order: what left, what is in its queue, and what waits for it. */
  ghost predicate InOrder(saps: seq<nat>, q: seq<Msg>, u: nat, queue: seq<Msg>, fates: seq<Fate>, arrived: seq<Msg>) {
    Msgs(fates) + queue + For(saps, q, Some(u)) == arrived
  }

  ghost predicate AllInOrder(saps: seq<nat>, q: seq<Msg>, queues: seq<seq<Msg>>, fates: seq<seq<Fate>>, arrived: seq<seq<Msg>>) {
    && |queues| == |fates| == |arrived| == |saps|
    && forall u :: 0 <= u < |saps| ==> InOrder(saps, q, u, queues[u], fates[u], arrived[u])
  }

  /** A stream that is not blocked gets its message at once: none for it are waiting. */
  lemma PutDirect(saps: seq<nat>, q: seq<Msg>, rblocked: seq<bool>, queues: seq<seq<Msg>>, fates: seq<seq<Fate>>,
                  arrived: seq<seq<Msg>>, u: nat, m: Msg)
    requires AllInOrder(saps, q, queues, fates, arrived) && Waiting(saps, q, rblocked) && Chosen(saps, m) == Some(u) && !rblocked[u]
    ensures AllInOrder(saps, q, queues[u := queues[u] + [m]], fates, arrived[u := arrived[u] + [m]])
  {
    hide Dest, Msgs;
    NoneFor(saps, q, Some(u));
    assert InOrder(saps, q, u, queues[u], fates[u], arrived[u]);
    assert Msgs(fates[u]) + (queues[u] + [m]) + [] == (Msgs(fates[u]) + queues[u] + []) + [m];
  }

  /** Otherwise it waits behind the others. */
  lemma PutDeferred(saps: seq<nat>, q: seq<Msg>, rblocked: seq<bool>, queues: seq<seq<Msg>>, fates: seq<seq<Fate>>,
                    arrived: seq<seq<Msg>>, u: nat, m: Msg)
    requires AllInOrder(saps, q, queues, fates, arrived) && Waiting(saps, q, rblocked) && Chosen(saps, m) == Some(u) && rblocked[u]
    ensures AllInOrder(saps, q + [m], queues, fates, arrived[u := arrived[u] + [m]]) && Waiting(saps, q + [m], rblocked)
    ensures For(saps, q + [m], None) == For(saps, q, None)
  {
    hide Dest, Msgs, For;
    ForPut(saps, q, m, None);
    forall v | 0 <= v < |saps|
      ensures InOrder(saps, q + [m], v, queues[v], fates[v], arrived[u := arrived[u] + [m]][v])
    {
      ForPut(saps, q, m, Some(v));
      assert InOrder(saps, q, v, queues[v], fates[v], arrived[v]);
    }
  }

  lemma PutControl(saps: seq<nat>, q: seq<Msg>, rblocked: seq<bool>, queues: seq<seq<Msg>>, fates: seq<seq<Fate>>,
                   arrived: seq<seq<Msg>>, m: Msg)
    requires AllInOrder(saps, q, queues, fates, arrived) && Waiting(saps, q, rblocked) && Chosen(saps, m) == None
    ensures AllInOrder(saps, q + [m], queues, fates, arrived) && Waiting(saps, q + [m], rblocked)
    ensures For(saps, q + [m], None) == For(saps, q, None) + [m]
  {
    hide Dest, Msgs, For;
    ForPut(saps, q, m, None);
    forall v | 0 <= v < |saps|
      ensures InOrder(saps, q + [m], v, queues[v], fates[v], arrived[v])
    {
      ForPut(saps, q, m, Some(v));
      assert InOrder(saps, q, v, queues[v], fates[v], arrived[v]);
    }
  }

  /** The first message that waits goes to its stream. */
  lemma ServeHead(saps: seq<nat>, q: seq<Msg>, rblocked: seq<bool>, queues: seq<seq<Msg>>, fates: seq<seq<Fate>>,
                  arrived: seq<seq<Msg>>, u: nat)
    requires AllInOrder(saps, q, queues, fates, arrived) && Waiting(saps, q, rblocked) && q != [] && Chosen(saps, q[0]) == Some(u)
    ensures AllInOrder(saps, q[1..], queues[u := queues[u] + [q[0]]], fates, arrived) && Waiting(saps, q[1..], rblocked)
    ensures For(saps, q[1..], None) == For(saps, q, None)
  {
    hide Dest, Msgs, For;
    ForHead(saps, q, None);
    forall v | 0 <= v < |saps|
      ensures InOrder(saps, q[1..], v, queues[u := queues[u] + [q[0]]][v], fates[v], arrived[v])
    {
      ForHead(saps, q, Some(v));
      assert InOrder(saps, q, v, queues[v], fates[v], arrived[v]);
      assert Msgs(fates[v]) + queues[v] + ([q[0]] + For(saps, q[1..], Some(v))) == Msgs(fates[v]) + (queues[v] + [q[0]]) + For(saps, q[1..], Some(v));
    }
  }

  /** Or up to pppd. */
  lemma ServeControl(saps: seq<nat>, q: seq<Msg>, rblocked: seq<bool>, queues: seq<seq<Msg>>, fates: seq<seq<Fate>>,
                     arrived: seq<seq<Msg>>)
    requires AllInOrder(saps, q, queues, fates, arrived) && Waiting(saps, q, rblocked) && q != [] && Chosen(saps, q[0]) == None
    ensures AllInOrder(saps, q[1..], queues, fates, arrived) && Waiting(saps, q[1..], rblocked)
    ensures For(saps, q, None) == [q[0]] + For(saps, q[1..], None)
  {
    hide Dest, Msgs, For;
    ForHead(saps, q, None);
    forall v | 0 <= v < |saps|
      ensures InOrder(saps, q[1..], v, queues[v], fates[v], arrived[v])
    {
      ForHead(saps, q, Some(v));
      assert InOrder(saps, q, v, queues[v], fates[v], arrived[v]);
    }
  }

  /** A stream's queue passes its first message on. */
  lemma ServeStream(saps: seq<nat>, q: seq<Msg>, queues: seq<seq<Msg>>, fates: seq<seq<Fate>>, arrived: seq<seq<Msg>>, u: nat, f: Fate)
    requires AllInOrder(saps, q, queues, fates, arrived) && u < |saps| && queues[u] != [] && f.m == queues[u][0]
    ensures AllInOrder(saps, q, queues[u := queues[u][1..]], fates[u := fates[u] + [f]], arrived)
  {
    hide Dest, For;
    assert InOrder(saps, q, u, queues[u], fates[u], arrived[u]);
    MsgsPut(fates[u], f);
    hide Msgs;
    assert queues[u] == [f.m] + queues[u][1..];
    assert (Msgs(fates[u]) + [f.m]) + queues[u][1..] == Msgs(fates[u]) + ([f.m] + queues[u][1..]);
  }

  lemma MsgsPut(fates: seq<Fate>, f: Fate)
    ensures Msgs(fates + [f]) == Msgs(fates) + [f.m]
  {
  }

  // ----- the order of frames for pppd

  ghost predicate Distinct(ms: seq<Msg>) {
    forall i, j :: 0 <= i < j < |ms| ==> ms[i] != ms[j]
  }

  /** Some frame that went up is not the one whose turn it was. */
  ghost predicate Misplaced(up: seq<Msg>, arrived: seq<Msg>) {
    |up| <= |arrived| && exists i :: 0 <= i < |up| && up[i] != arrived[i]
  }

  /** A frame that goes up at once keeps the order exactly if no frame waits, or only frames like it do. */
  lemma DirectKeepsOrder(up: seq<Msg>, waiting: seq<Msg>, arrived: seq<Msg>, m: Msg)
    requires up + waiting == arrived
    ensures (up + [m]) + waiting == arrived + [m] <==> forall i :: 0 <= i < |waiting| ==> waiting[i] == m
  {
    var x, y := (up + [m]) + waiting, arrived + [m];
    if x == y {
      AllAlike(up, waiting, m, |waiting|);
    }
    if forall i :: 0 <= i < |waiting| ==> waiting[i] == m {
      forall j | 0 <= j < |x|
        ensures x[j] == y[j]
      {
        if j >= |up| {
          assert x[j] == m && y[j] == m;
        }
      }
    }
  }

  lemma {:induction false} AllAlike(up: seq<Msg>, waiting: seq<Msg>, m: Msg, n: nat)
    requires n <= |waiting| && (up + [m]) + waiting == (up + waiting) + [m]
    ensures forall i :: 0 <= i < n ==> waiting[i] == m
  {
    if n > 0 {
      AllAlike(up, waiting, m, n - 1);
      var k := |up| + (n - 1);
      assert ((up + [m]) + waiting)[k] == (if n == 1 then m else waiting[n - 2]);
      assert ((up + waiting) + [m])[k] == waiting[n - 1];
    }
  }

  /** When all frames differ, the first to overtake is out of its place for good. */
  lemma Overtakes(up: seq<Msg>, waiting: seq<Msg>, arrived: seq<Msg>, m: Msg)
    requires up + waiting == arrived && waiting != [] && Distinct(arrived + [m])
    ensures Misplaced(up + [m], arrived + [m])
  {
    assert arrived[|up|] == waiting[0];
    assert (arrived + [m])[|up|] == arrived[|up|] && (arrived + [m])[|arrived|] == m;
    assert (up + [m])[|up|] == m;
  }

  lemma StaysMisplaced(up: seq<Msg>, up': seq<Msg>, arrived: seq<Msg>, arrived': seq<Msg>)
    requires Misplaced(up, arrived) && up <= up' && arrived <= arrived' && |up'| <= |arrived'|
    ensures Misplaced(up', arrived')
  {
    var i :| 0 <= i < |up| && up[i] != arrived[i];
    assert up'[i] == up[i] && arrived'[i] == arrived[i];
  }

  lemma DistinctPart(ms: seq<Msg>, m: Msg)
    requires Distinct(ms + [m])
    ensures Distinct(ms)
  {
    forall i, j | 0 <= i < j < |ms|
      ensures ms[i] != ms[j]
    {
      assert (ms + [m])[i] == ms[i] && (ms + [m])[j] == ms[j];
    }
  }

  /** The frames for pppd: in order until one overtakes, and if all differ never again. */
  ghost predicate Ordering(up: seq<Msg>, waiting: seq<Msg>, arrived: seq<Msg>, overtook: bool) {
    && (!overtook ==> up + waiting == arrived)
    && (overtook && Distinct(arrived) ==> Misplaced(up, arrived))
  }

  lemma OrderingDirect(up: seq<Msg>, waiting: seq<Msg>, arrived: seq<Msg>, overtook: bool, m: Msg)
    requires Ordering(up, waiting, arrived, overtook) && |up| <= |arrived|
    ensures Ordering(up + [m], waiting, arrived + [m], overtook || waiting != [])
  {
    if !overtook && waiting == [] {
      assert up + [] == up && (up + [m]) + [] == up + [m];
    }
    if Distinct(arrived + [m]) {
      DistinctPart(arrived, m);
      if overtook {
        StaysMisplaced(up, up + [m], arrived, arrived + [m]);
      } else if waiting != [] {
        Overtakes(up, waiting, arrived, m);
      }
    }
  }

  lemma OrderingDeferred(up: seq<Msg>, waiting: seq<Msg>, arrived: seq<Msg>, overtook: bool, m: Msg)
    requires Ordering(up, waiting, arrived, overtook) && |up| <= |arrived|
    ensures Ordering(up, waiting + [m], arrived + [m], overtook)
  {
    assert up + (waiting + [m]) == (up + waiting) + [m];
    if overtook && Distinct(arrived + [m]) {
      DistinctPart(arrived, m);
      StaysMisplaced(up, up, arrived, arrived + [m]);
    }
  }

  lemma OrderingServed(up: seq<Msg>, waiting: seq<Msg>, arrived: seq<Msg>, overtook: bool)
    requires Ordering(up, waiting, arrived, overtook) && waiting != [] && |up| + |waiting| == |arrived|
    ensures Ordering(up + [waiting[0]], waiting[1..], arrived, overtook)
  {
    assert (up + [waiting[0]]) + waiting[1..] == up + waiting;
    if overtook && Distinct(arrived) {
      StaysMisplaced(up, up + [waiting[0]], arrived, arrived);
    }
  }

  /** Over a whole run in which all frames differ: they are in the order they came in exactly if none was passed up while
      another waited. */
  lemma OrderExactly(up: seq<Msg>, waiting: seq<Msg>, arrived: seq<Msg>, overtook: bool)
    requires Ordering(up, waiting, arrived, overtook) && Distinct(arrived)
    ensures up + waiting == arrived <==> !overtook
  {
    if overtook {
      var i :| 0 <= i < |up| && up[i] != arrived[i];
      assert (up + waiting)[i] != arrived[i];
    }
  }

  lemma ChosenIs(saps: seq<nat>, m: Msg)
    ensures Chosen(saps, m) == if m.proto < 0x8000 then Dest(saps, m.proto) else None
  {
  }

  lemma StillWaiting(saps: seq<nat>, q: seq<Msg>, rblocked: seq<bool>, u: nat)
    requires Waiting(saps, q, rblocked) && u < |rblocked|
    ensures Waiting(saps, q, rblocked[u := true])
  {
  }

  // ----- service procedures

  /** How many of n messages are taken before the first that finds no room. */
  function Taken(room: seq<bool>, n: nat): (t: nat)
    requires n <= |room|
    ensures t <= n && (forall i :: 0 <= i < t ==> room[i]) && (t < n ==> !room[t])
  {
    if n == 0 then 0
    else
      var t := Taken(room, n - 1);
      if t == n - 1 && room[n - 1] then n else t
  }

  lemma TakenNone(room: seq<bool>, n: nat)
    requires n <= |room|
    ensures Taken(room, n) >= 0
  {
  }

  lemma TakenNext(room: seq<bool>, n: nat, i: nat)
    requires i < n <= |room| && i <= Taken(room, n)
    ensures if room[i] then i + 1 <= Taken(room, n) else Taken(room, n) == i
  {
  }

  lemma TakenAll(room: seq<bool>, n: nat)
    requires n <= |room| && n <= Taken(room, n)
    ensures Taken(room, n) == n
  {
  }

  /** What becomes of messages that are passed on, given whether there was memory for each. */
  function Fates(ms: seq<Msg>, memory: seq<bool>): (f: seq<Fate>)
    requires |ms| <= |memory|
    ensures |f| == |ms|
  {
    seq(|ms|, i requires 0 <= i < |ms| => if memory[i] then Sent(ms[i]) else Dropped(ms[i]))
  }

  /** The messages that moved have joined the queues of their streams. */
  ghost predicate Moved(saps: seq<nat>, before: seq<seq<Msg>>, after: seq<seq<Msg>>, moved: seq<Msg>) {
    |before| == |after| == |saps| && forall u :: 0 <= u < |saps| ==> after[u] == before[u] + For(saps, moved, Some(u))
  }

  lemma NoneMoved(saps: seq<nat>, queues: seq<seq<Msg>>)
    requires |queues| == |saps|
    ensures Moved(saps, queues, queues, []) && For(saps, [], None) == []
  {
  }

  lemma AllMoved(saps: seq<nat>, before: seq<seq<Msg>>, after: seq<seq<Msg>>, moved: seq<Msg>)
    requires Moved(saps, before, after, moved)
    ensures |before| == |after| == |saps| && forall u :: 0 <= u < |saps| ==> after[u] == before[u] + For(saps, moved, Some(u))
  {
  }

  /** One more moves, wherever it goes. */
  lemma MovedNext(saps: seq<nat>, before: seq<seq<Msg>>, after: seq<seq<Msg>>, q: seq<Msg>, n: nat, up: seq<Msg>, up0: seq<Msg>)
    requires n < |q| && Moved(saps, before, after, q[..n]) && up == up0 + For(saps, q[..n], None)
    ensures match Chosen(saps, q[n])
            case Some(u) => Moved(saps, before, after[u := after[u] + [q[n]]], q[..n + 1]) && up == up0 + For(saps, q[..n + 1], None)
            case None => Moved(saps, before, after, q[..n + 1]) && up + [q[n]] == up0 + For(saps, q[..n + 1], None)
  {
    hide Chosen, Dest, For;
    assert q[..n + 1] == q[..n] + [q[n]];
    ForPut(saps, q[..n], q[n], None);
    forall v | 0 <= v < |saps|
      ensures For(saps, q[..n + 1], Some(v)) == if Chosen(saps, q[n]) == Some(v) then For(saps, q[..n], Some(v)) + [q[n]] else For(saps, q[..n], Some(v))
    {
      ForPut(saps, q[..n], q[n], Some(v));
    }
  }

  class Ppa {
    const saps: seq<nat>
    var q: seq<Msg>
    var queues: seq<seq<Msg>>
    var rblocked: seq<bool>
    var fates: seq<seq<Fate>>
    var up: seq<Msg>
    ghost var arrived: seq<seq<Msg>>
    ghost var controls: seq<Msg>
    ghost var overtook: bool

    /** Frames for a stream wait on the control queue only while it is blocked; each stream's frames are in order; frames
        for pppd are neither lost nor repeated, and in order unless one went up while others waited. */
    ghost predicate Valid()
      reads this
    {
      && Waiting(saps, q, rblocked) && AllInOrder(saps, q, queues, fates, arrived)
      && multiset(up + For(saps, q, None)) == multiset(controls) && |up| + |For(saps, q, None)| == |controls|
      && Ordering(up, For(saps, q, None), controls, overtook)
    }

    constructor (saps: seq<nat>)
      ensures Valid() && this.saps == saps && q == [] && up == [] && controls == [] && !overtook
      ensures forall u :: 0 <= u < |saps| ==> arrived[u] == [] && queues[u] == [] && fates[u] == [] && !rblocked[u]
    {
      this.saps := saps;
      q, up, controls, overtook := [], [], [], false;
      queues := seq(|saps|, i => []);
      rblocked := seq(|saps|, i => false);
      fates := seq(|saps|, i => []);
      arrived := seq(|saps|, i => []);
    }

    /** find_dest */
    method FindDest(proto: nat) returns (d: Option<nat>)
      ensures d == Dest(saps, proto)
    {
      var us: nat := 0;
      assert saps[0..] == saps;
      while us < |saps|
        invariant us <= |saps| && Dest(saps, proto) == Later(Dest(saps[us..], proto), us)
      {
        if saps[us] == proto {
          return Some(us);
        }
        assert saps[us..][1..] == saps[us + 1..];
        us := us + 1;
      }
      d := None;
    }

    static function Later(d: Option<nat>, n: nat): Option<nat> {
      if d.None? then None else Some(d.value + n)
    }

    lemma Sizes()
      requires Valid()
      ensures |rblocked| == |queues| == |fates| == |arrived| == |saps|
    {
    }

    /** pppurput for a data frame that passes the filter; canput and canputnext are what the queues above answer. */
    method Put(m: Msg, canput: bool, canputnext: bool)
      requires Valid()
      modifies this
      ensures Valid() && fates == old(fates)
      ensures Chosen(saps, m).Some? ==> controls == old(controls) && up == old(up) && overtook == old(overtook)
      ensures Chosen(saps, m).Some? ==>
                var u := Chosen(saps, m).value;
                && |old(arrived)| == |old(queues)| == |old(rblocked)| == |saps|
                && arrived == old(arrived)[u := old(arrived[u]) + [m]]
                && (if old(rblocked[u]) || !canput then
                      q == old(q) + [m] && queues == old(queues) && rblocked == old(rblocked)[u := true]
                    else q == old(q) && queues == old(queues)[u := old(queues[u]) + [m]] && rblocked == old(rblocked))
      ensures Chosen(saps, m).None? ==>
                && arrived == old(arrived) && queues == old(queues) && rblocked == old(rblocked) && controls == old(controls) + [m]
                && (if canputnext then up == old(up) + [m] && q == old(q) else q == old(q) + [m] && up == old(up))
                && overtook == (old(overtook) || (canputnext && old(For(saps, q, None)) != []))
      // a frame for pppd keeps the order exactly if it waits too, or none waits, or only frames like it do
      ensures Chosen(saps, m).None? && old(up + For(saps, q, None) == controls) ==>
                (up + For(saps, q, None) == controls <==>
                   !canputnext || forall i :: 0 <= i < |old(For(saps, q, None))| ==> old(For(saps, q, None))[i] == m)
    {
      hide InOrder, For, Dest, AllInOrder, Waiting, Valid;
      Sizes();
      var d := None;
      if m.proto < 0x8000 {
        d := FindDest(m.proto);
      }
      ChosenIs(saps, m);
      if d.Some? {
        PutData(m, d.value, canput);
      } else {
        ghost var waiting, before, was := For(saps, q, None), controls, up;
        PutUp(m, canputnext);
        if was + waiting == before {
          DirectKeepsOrder(was, waiting, before, m);
          assert was + (waiting + [m]) == before + [m] && waiting + [] == waiting;
        }
      }
    }

    method PutData(m: Msg, us: nat, canput: bool)
      requires Valid() && Chosen(saps, m) == Some(us) && |rblocked| == |queues| == |arrived| == |saps|
      modifies this`q, this`queues, this`rblocked, this`arrived
      ensures Valid()
      ensures arrived == old(arrived)[us := old(arrived[us]) + [m]]
      ensures if old(rblocked[us]) || !canput then
                q == old(q) + [m] && queues == old(queues) && rblocked == old(rblocked)[us := true]
              else q == old(q) && queues == old(queues)[us := old(queues[us]) + [m]] && rblocked == old(rblocked)
    {
      hide InOrder, For, Dest, AllInOrder, Waiting, Chosen, Ordering;
      if !rblocked[us] && !canput {
        StillWaiting(saps, q, rblocked, us);
        rblocked := rblocked[us := true];
      }
      if !rblocked[us] {
        PutDirect(saps, q, rblocked, queues, fates, arrived, us, m);
        queues := queues[us := queues[us] + [m]];
      } else {
        assert rblocked == old(rblocked)[us := true];
        PutDeferred(saps, q, rblocked, queues, fates, arrived, us, m);
        q := q + [m];
      }
      arrived := arrived[us := arrived[us] + [m]];
    }

    method PutUp(m: Msg, canputnext: bool)
      requires Valid() && Chosen(saps, m) == None
      modifies this`q, this`up, this`controls, this`overtook
      ensures Valid() && controls == old(controls) + [m]
      ensures if canputnext then up == old(up) + [m] && q == old(q) else q == old(q) + [m] && up == old(up)
      ensures overtook == (old(overtook) || (canputnext && old(For(saps, q, None)) != []))
      ensures For(saps, q, None) == old(For(saps, q, None)) + if canputnext then [] else [m]
    {
      hide InOrder, For, Dest, AllInOrder, Waiting, Chosen, Ordering, Valid;
      if canputnext {
        PutNext(m);
      } else {
        PutBehind(m);
      }
    }

    method PutNext(m: Msg)
      requires Valid() && Chosen(saps, m) == None
      modifies this`up, this`controls, this`overtook
      ensures Valid() && controls == old(controls) + [m] && up == old(up) + [m]
      ensures overtook == (old(overtook) || For(saps, q, None) != [])
      ensures For(saps, q, None) == old(For(saps, q, None)) + []
    {
      hide InOrder, For, Dest, AllInOrder, Waiting, Chosen, Ordering;
      ghost var waiting := For(saps, q, None);
      MoreUp(up, waiting, controls, m);
      OrderingDirect(up, waiting, controls, overtook, m);
      overtook := overtook || waiting != [];
      up := up + [m];
      controls := controls + [m];
    }

    method PutBehind(m: Msg)
      requires Valid() && Chosen(saps, m) == None
      modifies this`q, this`controls
      ensures Valid() && controls == old(controls) + [m] && q == old(q) + [m]
      ensures For(saps, q, None) == old(For(saps, q, None)) + [m]
    {
      hide InOrder, For, Dest, AllInOrder, Waiting, Chosen, Ordering;
      ghost var waiting := For(saps, q, None);
      PutControl(saps, q, rblocked, queues, fates, arrived, m);
      OrderingDeferred(up, waiting, controls, overtook, m);
      MoreWaiting(up, waiting, controls, m);
      q := q + [m];
      controls := controls + [m];
    }

    lemma MoreUp(up: seq<Msg>, waiting: seq<Msg>, controls: seq<Msg>, m: Msg)
      requires multiset(up + waiting) == multiset(controls)
      ensures multiset((up + [m]) + waiting) == multiset(controls + [m]) && waiting + [] == waiting
    {
    }

    lemma MoreWaiting(up: seq<Msg>, waiting: seq<Msg>, controls: seq<Msg>, m: Msg)
      requires multiset(up + waiting) == multiset(controls)
      ensures multiset(up + (waiting + [m])) == multiset(controls + [m])
    {
      assert up + (waiting + [m]) == (up + waiting) + [m];
    }

    /** One round of the control stream's service loop; false when the message must stay. */
    method ServeOne(canput: bool, canputnext: bool) returns (ok: bool)
      requires Valid() && q != []
      modifies this`q, this`queues, this`up
      ensures Valid() && |old(queues)| == |saps|
      ensures ok <==> if Chosen(saps, old(q[0])).Some? then canput else canputnext
      ensures !ok ==> q == old(q) && queues == old(queues) && up == old(up)
      ensures ok ==> q == old(q[1..])
      ensures ok ==> match Chosen(saps, old(q[0]))
                     case Some(u) => queues == old(queues)[u := old(queues[u]) + [old(q[0])]] && up == old(up)
                     case None => queues == old(queues) && up == old(up) + [old(q[0])]
    {
      hide InOrder, For, Dest, AllInOrder, Waiting, Chosen, Valid;
      Sizes();
      ChosenIs(saps, q[0]);
      var mp := q[0];
      var d := None;
      if mp.proto < 0x8000 {
        d := FindDest(mp.proto);
      }
      if d.Some? {
        ok := canput;
        if ok {
          PassDown(d.value);
        }
      } else {
        ok := canputnext;
        if ok {
          PassUp();
        }
      }
    }

    /** putq(as->q, mp) */
    method PassDown(u: nat)
      requires Valid() && q != [] && Chosen(saps, q[0]) == Some(u) && |queues| == |saps|
      modifies this`q, this`queues
      ensures Valid() && q == old(q[1..]) && queues == old(queues)[u := old(queues[u]) + [old(q[0])]]
    {
      hide InOrder, For, Dest, AllInOrder, Waiting, Chosen, Ordering;
      ServeHead(saps, q, rblocked, queues, fates, arrived, u);
      queues := queues[u := queues[u] + [q[0]]];
      q := q[1..];
    }

    /** putnext(q, mp) */
    method PassUp()
      requires Valid() && q != [] && Chosen(saps, q[0]) == None
      modifies this`q, this`up
      ensures Valid() && q == old(q[1..]) && up == old(up) + [old(q[0])]
    {
      hide InOrder, For, Dest, AllInOrder, Waiting, Chosen, Ordering;
      ServeControl(saps, q, rblocked, queues, fates, arrived);
      OrderingServed(up, For(saps, q, None), controls, overtook);
      assert up + ([q[0]] + For(saps, q[1..], None)) == (up + [q[0]]) + For(saps, q[1..], None);
      up := up + [q[0]];
      q := q[1..];
    }

    /** pppursrv of the control stream: messages move on until one must stay, each to its stream or up to pppd, in order; once
        none are left no stream is blocked.  room holds the answers of canput and canputnext. */
    method ServiceControl(room: seq<bool>)
      requires Valid() && |room| >= |q|
      modifies this`q, this`queues, this`up, this`rblocked
      ensures Valid()
      ensures var n := Taken(room, |old(q)|);
              && q == old(q)[n..] && up == old(up) + For(saps, old(q)[..n], None)
              && |queues| == |old(queues)| == |saps|
              && forall u :: 0 <= u < |saps| ==> queues[u] == old(queues)[u] + For(saps, old(q)[..n], Some(u))
      ensures rblocked == if q != [] then old(rblocked) else seq(|saps|, i => false)
    {
      hide *;
      Sizes();
      var n: nat := 0;
      TakenNone(room, |q|);
      NoneMoved(saps, queues);
      assert q[..0] == [] && q[0..] == q && up + [] == up;
      while q != []
        invariant Valid() && rblocked == old(rblocked) && n <= |old(q)| && q == old(q)[n..] && |queues| == |old(queues)| == |saps|
        invariant n <= Taken(room, |old(q)|) && up == old(up) + For(saps, old(q)[..n], None)
        invariant Moved(saps, old(queues), queues, old(q)[..n])
        decreases |q|
      {
        MovedNext(saps, old(queues), queues, old(q), n, up, old(up));
        var ok := ServeOne(room[n], room[n]);
        TakenNext(room, |old(q)|, n);
        if !ok {
          AllMoved(saps, old(queues), queues, old(q)[..n]);
          return;
        }
        n := n + 1;
      }
      TakenAll(room, |old(q)|);
      AllMoved(saps, old(queues), queues, old(q)[..n]);
      Unblock();
    }

    /** No stream is blocked any more. */
    method Unblock()
      requires Valid() && q == []
      modifies this`rblocked
      ensures Valid() && rblocked == seq(|saps|, i => false)
    {
      hide InOrder, For, Dest, Ordering, Chosen, AllInOrder;
      rblocked := seq(|saps|, i => false);
    }

    /** pppursrv of a network stream: messages go up while they can; one is dropped when there is no memory for its header.
        room holds the answers of canputnext, memory those of allocb. */
    method ServiceStream(u: nat, room: seq<bool>, memory: seq<bool>)
      requires Valid() && u < |saps| && |queues| == |saps| && |room| >= |queues[u]| && |memory| >= |queues[u]|
      modifies this`queues, this`fates
      ensures Valid() && |queues| == |old(queues)| == |saps| == |fates| == |old(fates)|
      ensures var n := Taken(room, |old(queues[u])|);
              queues[u] == old(queues[u])[n..] && fates[u] == old(fates[u]) + Fates(old(queues[u])[..n], memory)
      ensures forall v :: 0 <= v < |saps| && v != u ==> queues[v] == old(queues[v]) && fates[v] == old(fates[v])
    {
      hide InOrder, For, Dest, Ordering, Waiting, Taken;
      var n: nat := 0;
      TakenNone(room, |queues[u]|);
      assert queues[u][0..] == queues[u] && queues[u][..0] == [] && fates[u] + [] == fates[u];
      while queues[u] != []
        invariant Valid() && |queues| == |saps| == |fates| && n <= |old(queues[u])| && queues[u] == old(queues[u])[n..]
        invariant n <= Taken(room, |old(queues[u])|) && fates[u] == old(fates[u]) + Fates(old(queues[u])[..n], memory)
        invariant forall v :: 0 <= v < |saps| && v != u ==> queues[v] == old(queues[v]) && fates[v] == old(fates[v])
        decreases |queues[u]|
      {
        TakenNext(room, |old(queues[u])|, n);
        if !room[n] {
          return;
        }
        var mp := queues[u][0];
        var f := if memory[n] then Sent(mp) else Dropped(mp);
        ServeStream(saps, q, queues, fates, arrived, u, f);
        queues, fates := queues[u := queues[u][1..]], fates[u := fates[u] + [f]];
        assert Fates(old(queues[u])[..n + 1], memory) == Fates(old(queues[u])[..n], memory) + [f];
        n := n + 1;
      }
      TakenAll(room, |old(queues[u])|);
    }
  }

  /** Whatever calls led here, frames for pppd that all differ are in order exactly if none was passed up while another
      waited. */
  lemma ControlOrder(p: Ppa)
    requires p.Valid() && Distinct(p.controls)
    ensures p.up + For(p.saps, p.q, None) == p.controls <==> !p.overtook
  {
    hide For, Waiting, AllInOrder;
    OrderExactly(p.up, For(p.saps, p.q, None), p.controls, p.overtook);
  }

  /** Frames for pppd, which have no stream of their own, can overtake each other: one waits behind a blocked protocol's
      frame while the next goes straight up. */
  method Overtaken() returns (p: Ppa)
    ensures p.Valid() && fresh(p)
    ensures p.controls == [Msg(0xc021, 1), Msg(0xc021, 2)] && p.up == [Msg(0xc021, 2)]
    ensures p.q == [Msg(0x21, 0), Msg(0xc021, 1)] && p.up + For(p.saps, p.q, None) != p.controls
  {
    hide Ppa.Valid, Chosen, For;
    p := new Ppa([0x21]);
    OneStream();
    p.Put(Msg(0x21, 0), false, true);
    p.Put(Msg(0xc021, 1), true, false);
    OneWaits();
    p.Put(Msg(0xc021, 2), true, true);
    ControlOrder(p);
  }

  lemma OneWaits()
    ensures For([0x21], [Msg(0x21, 0), Msg(0xc021, 1)], None) == [Msg(0xc021, 1)]
  {
    OneStream();
    hide Chosen;
    ForPut([0x21], [Msg(0x21, 0)], Msg(0xc021, 1), None);
    ForPut([0x21], [], Msg(0x21, 0), None);
    assert [] + [Msg(0x21, 0)] == [Msg(0x21, 0)];
  }

  lemma OneStream()
    ensures Chosen([0x21], Msg(0x21, 0)) == Some(0) && Chosen([0x21], Msg(0xc021, 1)) == None && Chosen([0x21], Msg(0xc021, 2)) == None
  {
  }
}
