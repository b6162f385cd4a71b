/**
 What the run coding of code lengths makes of each run, in closed form: zeros go out by up to
 138 at a time, other lengths once as themselves and then by six, and only what is left of a
 run, if it is too short for a repeat, is spelled out.
 */
module RunCoding {
  import opened CodeLengths

  function Spelled(v: nat, n: nat): (s: seq<Sym>)
    ensures |s| == n
  {
    seq(n, i => Sym(v, 0))
  }

  /** A run of zeros. */
  function ZeroRun(n: nat): seq<Sym> {
    if n >= 138 then [Sym(18, 127)] + ZeroRun(n - 138)
    else if n >= 11 then [Sym(18, n - 11)]
    else if n >= 3 then [Sym(17, n - 3)]
    else Spelled(0, n)
  }

  /** More of a length that has just been sent. */
  function MoreOf(v: nat, n: nat): seq<Sym> {
    if n >= 6 then [Sym(16, 3)] + MoreOf(v, n - 6)
    else if n >= 3 then [Sym(16, n - 3)]
    else Spelled(v, n)
  }

  /** A whole run. */
  function RunOf(v: nat, n: nat): seq<Sym>
    requires n >= 1
  {
    if v == 0 then ZeroRun(n) else [Sym(v, 0)] + MoreOf(v, n - 1)
  }

  /** From n on there are m equal lengths, and then another. */
  ghost predicate Equal(lens: seq<nat>, n: nat, m: nat) {
    && m >= 1 && n + m < |lens|
    && (forall i :: n <= i < n + m ==> lens[i] == lens[n])
    && lens[n + m] != lens[n]
  }

  lemma EqualOn(lens: seq<nat>, n: nat, m: nat, k: nat)
    requires Equal(lens, n, m) && k < m
    ensures n + k < |lens| && lens[n + k] == lens[n] && Equal(lens, n + k, m - k)
    ensures n + k + 1 < |lens| && (lens[n + k + 1] == lens[n + k] <==> k + 1 < m)
  {
    assert forall i :: n + k <= i < n + m ==> lens[i] == lens[n];
  }

  /** Counting up to the end of the run, or to the most that one repeat can say. */
  lemma {:induction false} OneRepeat(lens: seq<nat>, n: nat, prevlen: int, count: nat, m: nat)
    requires Guarded(lens) && Equal(lens, n, m) && m >= 1 && count < LimitsFor(prevlen, lens[n]).max
    ensures var v, l := lens[n], LimitsFor(prevlen, lens[n]);
            && (count + m <= l.max ==> Send(lens, n, prevlen, count) == Emit(v, prevlen, count + m, l.min) + Send(lens, n + m, v, 0))
            && (count + m > l.max ==>
                  Send(lens, n, prevlen, count) == Emit(v, prevlen, l.max, l.min) + Send(lens, n + (l.max - count), v, 0))
    decreases m
  {
    hide Emit, Guarded, Send, Equal, LimitsFor;
    EqualOn(lens, n, m, 0);
    SendUnfold(lens, n, prevlen, count);
    if m > 1 && count + 1 < LimitsFor(prevlen, lens[n]).max {
      EqualOn(lens, n, m, 1);
      OneRepeat(lens, n + 1, prevlen, count + 1, m - 1);
    }
  }

  lemma {:induction false} ZerosSent(lens: seq<nat>, n: nat, prevlen: int, m: nat)
    requires Guarded(lens) && Equal(lens, n, m) && lens[n] == 0
    ensures Send(lens, n, prevlen, 0) == ZeroRun(m) + Send(lens, n + m, 0, 0)
    decreases m
  {
    hide Send;
    OneRepeat(lens, n, prevlen, 0, m);
    if m > 138 {
      EqualOn(lens, n, m, 138);
      ZerosSent(lens, n + 138, 0, m - 138);
      assert [Sym(18, 127)] + (ZeroRun(m - 138) + Send(lens, n + m, 0, 0)) == ([Sym(18, 127)] + ZeroRun(m - 138)) + Send(lens, n + m, 0, 0);
    } else {
      ZerosAtOnce(m, prevlen);
    }
  }

  lemma ZerosAtOnce(m: nat, prevlen: int)
    requires 1 <= m <= 138
    ensures Emit(0, prevlen, m, 3) == ZeroRun(m)
  {
    if m == 138 {
      assert ZeroRun(138) == [Sym(18, 127)] + ZeroRun(0) && ZeroRun(0) == [];
    }
  }

  lemma {:induction false} MoreSent(lens: seq<nat>, n: nat, m: nat)
    requires Guarded(lens) && Equal(lens, n, m) && lens[n] != 0
    ensures Send(lens, n, lens[n], 0) == MoreOf(lens[n], m) + Send(lens, n + m, lens[n], 0)
    decreases m
  {
    hide Send;
    var v := lens[n];
    OneRepeat(lens, n, v, 0, m);
    if m > 6 {
      EqualOn(lens, n, m, 6);
      MoreSent(lens, n + 6, m - 6);
      assert [Sym(16, 3)] + (MoreOf(v, m - 6) + Send(lens, n + m, v, 0)) == ([Sym(16, 3)] + MoreOf(v, m - 6)) + Send(lens, n + m, v, 0);
    } else {
      MoreAtOnce(v, m);
    }
  }

  lemma MoreAtOnce(v: nat, m: nat)
    requires 1 <= m <= 6 && v != 0
    ensures Emit(v, v, m, 3) == MoreOf(v, m)
  {
    if m == 6 {
      assert MoreOf(v, 6) == [Sym(16, 3)] + MoreOf(v, 0) && MoreOf(v, 0) == [];
    }
  }

  lemma FirstAtOnce(v: nat, prevlen: int, m: nat)
    requires 1 <= m <= 7 && v != 0 && v != prevlen
    ensures Emit(v, prevlen, m, 4) == [Sym(v, 0)] + MoreOf(v, m - 1)
  {
    if m == 7 {
      assert MoreOf(v, 6) == [Sym(16, 3)] + MoreOf(v, 0) && MoreOf(v, 0) == [];
    } else if m <= 3 {
      assert Spelled(v, m) == [Sym(v, 0)] + Spelled(v, m - 1);
    }
  }

  /** What send_tree sends for a run that follows another length, whatever comes after it. */
  lemma RunSent(lens: seq<nat>, n: nat, prevlen: int, m: nat)
    requires Guarded(lens) && Equal(lens, n, m) && prevlen != lens[n]
    ensures Send(lens, n, prevlen, 0) == RunOf(lens[n], m) + Send(lens, n + m, lens[n], 0)
  {
    hide Send;
    var v := lens[n];
    if v == 0 {
      ZerosSent(lens, n, prevlen, m);
    } else {
      OneRepeat(lens, n, prevlen, 0, m);
      FirstAtOnce(v, prevlen, if m <= 7 then m else 7);
      if m > 7 {
        EqualOn(lens, n, m, 7);
        MoreSent(lens, n + 7, m - 7);
        MoreBySix(v, m - 1);
        assert ([Sym(v, 0)] + [Sym(16, 3)]) + (MoreOf(v, m - 7) + Send(lens, n + m, v, 0))
            == ([Sym(v, 0)] + ([Sym(16, 3)] + MoreOf(v, m - 7))) + Send(lens, n + m, v, 0);
      }
    }
  }

  lemma MoreBySix(v: nat, n: nat)
    requires n >= 6
    ensures MoreOf(v, n) == [Sym(16, 3)] + MoreOf(v, n - 6) && MoreOf(v, 6) == [Sym(16, 3)]
  {
    assert MoreOf(v, 0) == [];
    assert MoreOf(v, 6) == [Sym(16, 3)] + MoreOf(v, 0);
  }
}
