/**
 Every stream of bits is the beginning of some script: wherever the bits come from, they spell
 literals, lengths and distances one after the other, until the block ends or a code means
 nothing.  So what holds of decoding a script holds of decoding any input.
 */
module InflateStreams {
  import opened Bits
  import opened BitOrder
  import opened Alphabet
  import opened Lz77Tokens
  import opened CanonicalCodes
  import opened HuftTheory
  import opened HuftState
  import opened HuftPlacing
  import opened HuftTrees
  import opened HuftDecoding
  import opened InflateScript
  import Codebook

  // ----- bits taken from the front

  /** At least 15 bits to look at. */
  function Padded(b: seq<bool>): (r: seq<bool>)
    ensures |r| == |b| + 15 && b <= r
  {
    b + seq(15, i => false)
  }

  function Drop(b: seq<bool>, n: nat): seq<bool> {
    if n <= |b| then b[n..] else []
  }

  lemma Taken(b: seq<bool>, word: seq<bool>, more: seq<bool>)
    requires word <= Padded(b) && Drop(b, |word|) <= more
    ensures b <= word + more
  {
    if |word| <= |b| {
      assert b == b[..|word|] + b[|word|..];
    } else {
      assert b <= word;
    }
  }

  /** The value of the next e bits. */
  lemma TakeExtra(b: seq<bool>, e: nat) returns (x: nat)
    requires e <= 15
    ensures x < Pow2(e) && LowBits(x, e) <= Padded(b)
  {
    x := FromLow(Padded(b)[..e]);
    LowFromLow(Padded(b)[..e]);
  }

  // ----- codes taken from the front

  /** Some code of the table comes first. */
  lemma TakeCode(t: Table, s: nat, d: seq<nat>, e: seq<nat>, b: seq<bool>) returns (k: nat, v: nat)
    requires t.Valid(s, d, e)
    ensures t.f.IsCode(k, v) && 1 <= k <= 15 && ToBits(v, k) <= Padded(b)
  {
    hide Reached, Plan.IsCode, NoSkip, Plan.Valid, ToBits, Symbols, CanonicalCodes.Code, Sound, AllSet, AtTable, Walk, Table.Valid, Padded, Pow2;
    var look := Padded(b);
    FirstTableReached(t, s, d, e);
    TableParts(t, s, d, e, 0, []);
    FromReached(t, 0, []);
    k, v := WalkEnds(t.f, t.Work(), 0, [], look);
    assert [] + look[..k] == look[..k];
    CodeSize(t.f, k, v);
  }

  lemma FromReached(t: Table, n: nat, past: seq<bool>)
    requires Reached(t, n, past)
    ensures t.f.Valid() && t.f.g <= 15 && Sound(t.f, t.Work()) && AllSet(t.tables)
  {
    hide Sound, AllSet, Plan.Valid;
  }

  lemma CodeSize(f: Plan, k: nat, v: nat)
    requires f.IsCode(k, v)
    ensures 1 <= k <= f.g
  {
  }

  /** The code means nothing, or is the word of a symbol. */
  lemma CodeMeaning(t: Table, s: nat, d: seq<nat>, e: seq<nat>, k: nat, v: nat) returns (n: nat)
    requires t.Valid(s, d, e) && t.f.IsCode(k, v)
    ensures t.f.pay(k, v) == Op(INVALID, 0) || (t.Codes(n) && n < |t.lens| && t.Book().Word(n) == ToBits(v, k) && t.f.pay(k, v) == OpOf(n, s, d, e))
  {
    hide Plan.IsCode, NoSkip, Plan.Valid, ToBits, CanonicalCodes.Code, Sound, AllSet, BookOf;
    n := 0;
    if t.f.pay(k, v) != Op(INVALID, 0) {
      n :| CodeFor(t.f, t.lens, n, k, v);
      BookWord(t.lens, t.f.c, n);
    }
  }

  // ----- scripts built from the back

  lemma Tables(s: Script)
    requires s.Valid()
    ensures s.Tabled()
    ensures (forall n :: 0 <= n < |s.lt.lens| ==> s.lt.lens[n] <= |s.lt.f.c|) && forall n :: 0 <= n < |s.dt.lens| ==> s.dt.lens[n] <= |s.dt.f.c|
  {
    hide Tabled, NoSkip;
  }

  lemma {:induction false} Shifted(s: Script, r: Script, i: nat)
    requires s.Valid() && r.Valid() && |r.items| > 0 && r == s.(items := r.items, ts := r.ts) && r.items[1..] == s.items
    requires i <= |s.items|
    ensures r.From(i + 1) == s.From(i)
    decreases |s.items| - i
  {
    hide Script.Valid, Script.Tabled, Script.Piece, Item.Valid;
    if i == |s.items| {
      SameEnd(s, r);
    } else {
      Shifted(s, r, i + 1);
      PieceFrom(s, i);
      PieceFrom(r, i + 1);
      assert r.items[i + 1] == r.items[1..][i] == s.items[i];
      Tables(s);
      Tables(r);
      SamePiece(s, r, s.items[i]);
    }
  }

  lemma SameEnd(s: Script, r: Script)
    requires s.Valid() && r.Valid() && r == s.(items := r.items, ts := r.ts)
    ensures r.From(|r.items|) == s.From(|s.items|)
  {
    hide Script.Tabled;
  }

  lemma PieceFrom(s: Script, i: nat)
    requires s.Valid() && i < |s.items|
    ensures s.items[i].Valid() && s.From(i) == s.Piece(s.items[i]) + s.From(i + 1)
  {
    hide Script.Tabled, Script.Piece, Item.Valid;
    assert s.Sends(s.items[i]);
  }

  lemma SamePiece(s: Script, r: Script, m: Item)
    requires s.Tabled() && r.Tabled() && r.lt == s.lt && r.dt == s.dt && m.Valid()
    ensures r.Piece(m) == s.Piece(m)
  {
    hide Script.Tabled, Item.Valid, ExtraLbits, ExtraDbits;
  }

  /** An item in front of a script. */
  lemma Prepend(s: Script, m: Item) returns (r: Script)
    requires s.Valid() && s.Sends(m)
    ensures r.Valid() && r.lt == s.lt && r.dt == s.dt && r.From(0) == s.Piece(m) + s.From(0)
  {
    hide *;
    SendsValid(s, m);
    r := s.(items := [m] + s.items, ts := [m.Token()] + s.ts);
    PrependValid(s, m, r);
    assert r.items[0] == m && r.items[1..] == s.items;
    Shifted(s, r, 0);
    PieceFrom(r, 0);
    SamePiece(s, r, m);
  }

  lemma SendsValid(s: Script, m: Item)
    requires s.Sends(m)
    ensures m.Valid()
  {
  }

  lemma PrependValid(s: Script, m: Item, r: Script)
    requires s.Valid() && s.Sends(m) && r == s.(items := [m] + s.items, ts := [m.Token()] + s.ts)
    ensures s.Tabled() && r.Tabled() && r.Valid()
  {
    hide Table.Valid, Item.Valid, Item.Token, Table.Codes, Plan.IsCode;
    forall i | 0 <= i < |r.items|
      ensures r.Sends(r.items[i]) && r.ts[i] == r.items[i].Token()
    {
      if i > 0 {
        assert s.Sends(s.items[i - 1]);
      }
    }
  }

  // ----- every stream

  /** Tables for a block, with a code for its end. */
  ghost predicate Usable(lt: Table, dt: Table) {
    && lt.Valid(LITERALS + 1, Cplens(), Cplext()) && dt.Valid(0, Cpdist(), Cpdext())
    && |lt.lens| <= N_MAX && |dt.lens| <= D_CODES && lt.Codes(END_BLOCK)
  }

  lemma Books(lt: Table, dt: Table)
    requires Usable(lt, dt)
    ensures (forall n :: 0 <= n < |lt.lens| ==> lt.lens[n] <= |lt.f.c|) && forall n :: 0 <= n < |dt.lens| ==> dt.lens[n] <= |dt.f.c|
  {
    hide Tabled, NoSkip;
  }

  lemma EndsNow(lt: Table, dt: Table, b: seq<bool>) returns (s: Script)
    requires Usable(lt, dt) && (b == [] || lt.Book().Word(END_BLOCK) <= Padded(b))
    ensures s.Valid() && s.lt == lt && s.dt == dt && b <= s.From(0)
  {
    hide Table.Valid, Table.Codes, Plan.IsCode, Padded, IsInvalid, Codebook.Code.Word, BookOf;
    Books(lt, dt);
    var word := lt.Book().Word(END_BLOCK);
    var tail := if b == [] then [] else Padded(b)[|word|..];
    s := Script(lt, dt, [], [], EndOfBlock, tail);
    assert s.From(0) == word + tail;
  }

  lemma EndsBadly(lt: Table, dt: Table, b: seq<bool>, k: nat, v: nat) returns (s: Script)
    requires Usable(lt, dt) && lt.f.IsCode(k, v) && IsInvalid(lt.f.pay(k, v)) && ToBits(v, k) <= Padded(b)
    ensures s.Valid() && s.lt == lt && s.dt == dt && b <= s.From(0)
  {
    hide Table.Valid, Table.Codes, Plan.IsCode, Padded, IsInvalid, Codebook.Code.Word, BookOf, ToBits;
    s := Script(lt, dt, [], [], BadLength(k, v), Padded(b)[k..]);
    assert s.From(0) == ToBits(v, k) + s.tail;
  }

  lemma BadDistanceScript(lt: Table, dt: Table, c: nat, x: nat, k: nat, v: nat, tail: seq<bool>) returns (s: Script)
    requires Usable(lt, dt) && LengthOk(c, x) && lt.Codes(LITERALS + 1 + c) && dt.f.IsCode(k, v) && IsInvalid(dt.f.pay(k, v))
    ensures s.Valid() && s.lt == lt && s.dt == dt
    ensures s.From(0) == lt.Book().Word(LITERALS + 1 + c) + (LowBits(x, ExtraLbits()[c]) + (ToBits(v, k) + tail))
  {
    hide Table.Valid, Table.Codes, Plan.IsCode, IsInvalid, Codebook.Code.Word, BookOf, ToBits, ExtraLbits, Pow2, LowBits;
    Books(lt, dt);
    s := Script(lt, dt, [], [], BadDistance(c, x, k, v), tail);
    Regrouped(lt.Book().Word(LITERALS + 1 + c), LowBits(x, ExtraLbits()[c]), ToBits(v, k), tail);
  }

  lemma MatchScript(r: Script, c: nat, x: nat, dc: nat, y: nat) returns (s: Script)
    requires r.Valid() && r.Sends(Match(c, x, dc, y))
    ensures s.Valid() && s.lt == r.lt && s.dt == r.dt && c < LENGTH_CODES && dc < D_CODES
    ensures s.From(0) == r.lt.Book().Word(LITERALS + 1 + c) + (LowBits(x, ExtraLbits()[c])
                           + (r.dt.Book().Word(dc) + (LowBits(y, ExtraDbits()[dc]) + r.From(0))))
  {
    hide Script.Valid, Table.Valid, Table.Codes, Plan.IsCode, Codebook.Code.Word, BookOf, ExtraLbits, ExtraDbits, Pow2, LowBits, Script.From,
      Item.Token;
    Tables(r);
    s := Prepend(r, Match(c, x, dc, y));
    Together(r.lt.Book().Word(LITERALS + 1 + c), LowBits(x, ExtraLbits()[c]), r.dt.Book().Word(dc), LowBits(y, ExtraDbits()[dc]),
             r.From(0));
  }

  lemma Together(a: seq<bool>, b: seq<bool>, c: seq<bool>, d: seq<bool>, e: seq<bool>)
    ensures ((a + b) + (c + d)) + e == a + (b + (c + (d + e)))
  {
  }

  /** Symbols beyond the last length or distance mean nothing either. */
  lemma SymbolMeaning(size: nat, n: nat)
    requires size <= N_MAX
    ensures 286 <= n < size ==> IsInvalid(OpOf(n, LITERALS + 1, Cplens(), Cplext()))
    ensures IsInvalid(Op(INVALID, 0))
  {
  }

  /** Any bits at all are the beginning of a script. */
  lemma EveryStream(lt: Table, dt: Table, b: seq<bool>) returns (s: Script)
    requires Usable(lt, dt)
    ensures s.Valid() && s.lt == lt && s.dt == dt && b <= s.From(0)
    decreases |b|, 1
  {
    hide Table.Valid, Script.Valid, Script.From, Plan.IsCode, Padded, IsInvalid, Codebook.Code.Word, BookOf, Cplens, Cplext, ToBits,
      OpOf, Symbols;
    if b == [] {
      s := EndsNow(lt, dt, b);
    } else {
      var k, v := TakeCode(lt, LITERALS + 1, Cplens(), Cplext(), b);
      var n := CodeMeaning(lt, LITERALS + 1, Cplens(), Cplext(), k, v);
      if lt.f.pay(k, v) == Op(INVALID, 0) || n >= 286 {
        SymbolMeaning(|lt.lens|, n);
        s := EndsBadly(lt, dt, b, k, v);
      } else if n == END_BLOCK {
        s := EndsNow(lt, dt, b);
      } else if n < LITERALS {
        var r := EveryStream(lt, dt, Drop(b, k));
        s := Prepend(r, Lit(n));
        Taken(b, ToBits(v, k), r.From(0));
      } else {
        var more;
        s, more := MatchStream(lt, dt, Drop(b, k), n - (LITERALS + 1));
        Taken(b, ToBits(v, k), more);
      }
    }
  }

  /** After a length symbol. */
  lemma MatchStream(lt: Table, dt: Table, b: seq<bool>, c: nat) returns (s: Script, more: seq<bool>)
    requires Usable(lt, dt) && c < LENGTH_CODES && lt.Codes(LITERALS + 1 + c)
    ensures s.Valid() && s.lt == lt && s.dt == dt && s.From(0) == lt.Book().Word(LITERALS + 1 + c) + more && b <= more
    decreases |b|, 2
  {
    hide Table.Valid, Script.Valid, Script.From, Plan.IsCode, Padded, IsInvalid, Codebook.Code.Word, BookOf, Cpdist, Cpdext, ToBits,
      OpOf, Symbols, LowBits, Pow2, ExtraLbits, ExtraDbits, Table.Codes, Item.Token;
    Books(lt, dt);
    LbitsAt(c);
    var x := TakeExtra(b, ExtraLbits()[c]);
    var b1 := Drop(b, ExtraLbits()[c]);
    var k, v := TakeCode(dt, 0, Cpdist(), Cpdext(), b1);
    var n := CodeMeaning(dt, 0, Cpdist(), Cpdext(), k, v);
    ghost var rest: seq<bool>;
    if dt.f.pay(k, v) == Op(INVALID, 0) {
      InvalidMeans();
      var tail := Padded(b1)[k..];
      s := BadDistanceScript(lt, dt, c, x, k, v, tail);
      rest := ToBits(v, k) + tail;
      assert rest == Padded(b1);
    } else {
      DbitsAt(n);
      var b2 := Drop(b1, k);
      var y := TakeExtra(b2, ExtraDbits()[n]);
      var b3 := Drop(b2, ExtraDbits()[n]);
      var r := EveryStream(lt, dt, b3);
      SendsMatch(r, c, x, n, y);
      s := MatchScript(r, c, x, n, y);
      Taken(b2, LowBits(y, ExtraDbits()[n]), r.From(0));
      rest := dt.Book().Word(n) + (LowBits(y, ExtraDbits()[n]) + r.From(0));
      Taken(b1, dt.Book().Word(n), LowBits(y, ExtraDbits()[n]) + r.From(0));
    }
    more := LowBits(x, ExtraLbits()[c]) + rest;
    Taken(b, LowBits(x, ExtraLbits()[c]), rest);
  }

  lemma InvalidMeans()
    ensures IsInvalid(Op(INVALID, 0))
  {
  }

  lemma SendsMatch(r: Script, c: nat, x: nat, dc: nat, y: nat)
    requires c < LENGTH_CODES && dc < D_CODES && x < Pow2(ExtraLbits()[c]) && y < Pow2(ExtraDbits()[dc])
    requires r.lt.Codes(LITERALS + 1 + c) && r.dt.Codes(dc)
    ensures r.Sends(Match(c, x, dc, y))
  {
    hide Table.Codes, Pow2, ExtraLbits, ExtraDbits;
  }
}
