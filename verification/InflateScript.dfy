/**
 The bits of a block body as inflate meets them: the tokens one after the other, then the end
 of the block or a code that stands for nothing.  Also what the entries of the decode tables
 mean for the next token.
 */
module InflateScript {
  import opened Options
  import opened Arith
  import opened Bits
  import opened BitOrder
  import opened Sums
  import opened Alphabet
  import opened Lz77Tokens
  import opened Blocks
  import opened LengthRepair
  import opened CanonicalCodes
  import opened HuftTheory
  import opened HuftState
  import opened HuftPlacing
  import opened HuftTrees
  import opened HuftDecoding
  import Codebook

  /** The code book for given lengths. */
  ghost function BookOf(lens: seq<nat>, c: seq<nat>): (k: Codebook.Code)
    requires forall n :: 0 <= n < |lens| ==> lens[n] <= |c|
    ensures |k.code| == |k.len| == |lens|
  {
    Codebook.Code(seq(|lens|, n requires 0 <= n < |lens| => Reversed(CanonicalCodes.Code(Symbols(lens), lens, c, n), lens[n])), lens)
  }

  lemma BookWord(lens: seq<nat>, c: seq<nat>, n: nat)
    requires n < |lens| && forall n :: 0 <= n < |lens| ==> lens[n] <= |c|
    ensures BookOf(lens, c).Word(n) == ToBits(CanonicalCodes.Code(Symbols(lens), lens, c, n), lens[n])
  {
    ReversedBits(CanonicalCodes.Code(Symbols(lens), lens, c, n), lens[n]);
  }

  /** A decode table and what it was made from. */
  datatype Table = Table(f: Plan, tables: seq<seq<Huft>>, ms: seq<Meta>, bits: nat, lens: seq<nat>) {
    ghost predicate Valid(s: nat, d: seq<nat>, e: seq<nat>) {
      && Tabled(f, tables, ms, bits, lens, s, d, e) && NoSkip(f)
      && forall n :: 0 <= n < |lens| ==> lens[n] <= |f.c|
    }

    ghost function Work(): Work {
      HuftState.Work(tables, ms, [])
    }

    ghost function Book(): Codebook.Code
      requires forall n :: 0 <= n < |lens| ==> lens[n] <= |f.c|
    {
      BookOf(lens, f.c)
    }

    /** Symbol n has a code. */
    ghost predicate Codes(n: nat) {
      n in Symbols(lens)
    }
  }

  /** A literal, or the codes and extra values of a length and a distance.  A length of 258 may be spelled by code 28, as
      deflate does, or by code 27 with all five extra bits set; inflate takes both. */
  datatype Item = Lit(b: nat) | Match(c: nat, x: nat, dc: nat, y: nat) {
    ghost predicate Valid() {
      match this
      case Lit(b) => b < 256
      case Match(c, x, dc, y) => LengthOk(c, x) && dc < D_CODES && y < Pow2(ExtraDbits()[dc])
    }

    ghost function Token(): Token
      requires Valid()
    {
      match this
      case Lit(b) => Lz77Tokens.Token(0, b)
      case Match(c, x, dc, y) => CplensLeast(c); Lz77Tokens.Token(Cpdist()[dc] + y, Cplens()[c] + x - MIN_MATCH)
    }
  }

  /** An extra value that the length code has bits for. */
  ghost predicate LengthOk(c: nat, x: nat) {
    c < LENGTH_CODES && x < Pow2(ExtraLbits()[c])
  }

  lemma CplensLeast(c: nat)
    requires c < LENGTH_CODES
    ensures c < |Cplens()| && Cplens()[c] >= MIN_MATCH
  {
  }

  /** What a block body ends with: the end of the block, an invalid length code, or an invalid distance code after a
      length. */
  datatype Ending = EndOfBlock | BadLength(k: nat, v: nat) | BadDistance(c: nat, x: nat, k: nat, v: nat)

  /** Tables from huft_build are valid if no code skips a table. */
  lemma TableWorks(t: Table, s: nat, d: seq<nat>, e: seq<nat>)
    requires Tabled(t.f, t.tables, t.ms, t.bits, t.lens, s, d, e) && NoSkip(t.f)
    ensures t.Valid(s, d, e)
  {
    hide Plan.IsCode, NoSkip, CanonicalCodes.Code, Plan.Valid, Sound, AllSet;
    forall n | 0 <= n < |t.lens|
      ensures t.lens[n] <= |t.f.c|
    {
      if t.lens[n] != 0 { assert n in Symbols(t.lens); }
    }
  }

  /** That is so for every call of huft_build: 7 bits for the code length code, whose lengths are at most 7, and for the
      fixed literals, whose lengths are at most 9; 5 for the fixed distances; 9 for the literals of a dynamic block, and 6
      for its at most 30 distances. */
  lemma CallersTablesWork(t: Table, m: nat, s: nat, d: seq<nat>, e: seq<nat>)
    requires Tabled(t.f, t.tables, t.ms, t.bits, t.lens, s, d, e) && Sized(t.lens, m, t.bits, t.f.g)
    requires || (m == 7 && t.f.g <= 9) || (m == 5 && t.f.g <= 5) || m == 9
             || (m == 6 && |t.lens| <= 30 && (Counts(Symbols(t.lens), t.lens, t.f.c) || t.f.g == 1))
    ensures t.Valid(s, d, e)
  {
    hide Plan.IsCode, NoSkip, CanonicalCodes.Code, Plan.Valid, Sound, AllSet, Counts, Symbols, Table.Valid;
    if t.f.g <= 2 * t.bits {
      TwoLevelsNeverSkip(t.f);
    } else {
      CallersNeverSkip(t.f, t.lens, m);
    }
    TableWorks(t, s, d, e);
  }

  /** A body: literal/length table, distance table, items and the tokens they spell, ending, and the bits after it. */
  datatype Script = Script(lt: Table, dt: Table, items: seq<Item>, ts: seq<Token>, ending: Ending, tail: seq<bool>) {
    ghost predicate Tabled() {
      && lt.Valid(LITERALS + 1, Cplens(), Cplext()) && dt.Valid(0, Cpdist(), Cpdext())
      && |lt.lens| <= N_MAX && |dt.lens| <= D_CODES && |ts| == |items|
    }

    ghost predicate Valid() {
      && Tabled()
      && (forall i :: 0 <= i < |items| ==> Sends(items[i]) && ts[i] == items[i].Token())
      && match ending
         case EndOfBlock => lt.Codes(END_BLOCK)
         case BadLength(k, v) => lt.f.IsCode(k, v) && IsInvalid(lt.f.pay(k, v))
         case BadDistance(c, x, k, v) =>
           LengthOk(c, x) && lt.Codes(LITERALS + 1 + c) && dt.f.IsCode(k, v) && IsInvalid(dt.f.pay(k, v))
    }

    /** The item's symbols have codes. */
    ghost predicate Sends(m: Item) {
      && m.Valid()
      && match m
         case Lit(b) => lt.Codes(b)
         case Match(c, _, dc, _) => lt.Codes(LITERALS + 1 + c) && dt.Codes(dc)
    }

    ghost function LengthBits(c: nat, x: nat): seq<bool>
      requires Tabled() && c < LENGTH_CODES
    {
      lt.Book().Word(LITERALS + 1 + c) + LowBits(x, ExtraLbits()[c])
    }

    ghost function DistanceBits(dc: nat, y: nat): seq<bool>
      requires Tabled() && dc < D_CODES
    {
      dt.Book().Word(dc) + LowBits(y, ExtraDbits()[dc])
    }

    /** The bits of an item. */
    ghost function Piece(m: Item): seq<bool>
      requires Tabled() && m.Valid()
    {
      match m
      case Lit(b) => lt.Book().Word(b)
      case Match(c, x, dc, y) => LengthBits(c, x) + DistanceBits(dc, y)
    }

    ghost function EndBits(): seq<bool>
      requires Valid()
    {
      match ending
      case EndOfBlock => lt.Book().Word(END_BLOCK)
      case BadLength(k, v) => ToBits(v, k)
      case BadDistance(c, x, k, v) => LengthBits(c, x) + ToBits(v, k)
    }

    /** The bits from item i on. */
    ghost function From(i: nat): seq<bool>
      requires Valid() && i <= |items|
      decreases |items| - i
    {
      if i == |items| then EndBits() + tail else Piece(items[i]) + From(i + 1)
    }

    /** A length is to come: that of item i, or of a bad distance. */
    ghost predicate HasLength(i: nat) {
      (i < |items| && items[i].Match?) || (i == |items| && ending.BadDistance?)
    }

    ghost function LenCode(i: nat): nat
      requires HasLength(i)
    {
      if i < |items| then items[i].c else ending.c
    }

    ghost function LenExtra(i: nat): nat
      requires HasLength(i)
    {
      if i < |items| then items[i].x else ending.x
    }

    /** The bits after the length: the distance and on. */
    ghost function AfterLength(i: nat): seq<bool>
      requires Valid() && HasLength(i)
    {
      if i < |items| then DistanceBits(items[i].dc, items[i].y) + From(i + 1) else ToBits(ending.v, ending.k) + tail
    }
  }

  /** The bits from item i on, once the symbol of its length is dropped. */
  ghost predicate AtExtra(s: Script, i: nat, rest: seq<bool>)
    requires s.Valid()
  {
    && i <= |s.items| && s.HasLength(i) && LengthOk(s.LenCode(i), s.LenExtra(i))
    && rest == LowBits(s.LenExtra(i), ExtraLbits()[s.LenCode(i)]) + s.AfterLength(i)
  }

  /** The entry is for a code that means nothing: neither literal, length, link nor end. */
  predicate IsInvalid(op: Op) {
    op.exop >= 64 && (op.exop / 16) % 2 == 0 && (op.exop / 64) % 2 == 1 && (op.exop / 32) % 2 == 0
  }

  // ----- what a length or literal code leads to

  /** The code that the bits from item i on begin with, and what its entry says. */
  lemma NextLength(s: Script, i: nat) returns (k: nat, v: nat, op: Op)
    requires s.Valid() && i <= |s.items|
    ensures s.lt.f.IsCode(k, v) && op == s.lt.f.pay(k, v) && ToBits(v, k) <= s.From(i)
    ensures i < |s.items| && s.items[i].Lit? ==> op == Op(0, s.items[i].b) && s.From(i)[k..] == s.From(i + 1)
    ensures s.HasLength(i) ==>
              AtExtra(s, i, s.From(i)[k..]) && var c := s.LenCode(i); op == Op(ExtraLbits()[c] + 80, Cplens()[c]) && ExtraLbits()[c] <= 5
    ensures i == |s.items| && s.ending.EndOfBlock? ==> op == Op(96, 256) && s.From(i)[k..] == s.tail
    ensures i == |s.items| && s.ending.BadLength? ==> IsInvalid(op) && s.From(i)[k..] == s.tail
  {
    hide Tabled, NoSkip, Plan.IsCode, ToBits, LowBits, CanonicalCodes.Code, BookOf, Cplens, Cplext, Cpdist, Cpdext, ExtraLbits, ExtraDbits, Pow2;
    if i == |s.items| && s.ending.BadLength? {
      k, v := s.ending.k, s.ending.v;
      op := s.lt.f.pay(k, v);
      assert s.From(i) == ToBits(v, k) + s.tail;
    } else {
      var n := FirstSymbol(s, i);
      SymbolCoded(s, i);
      k, v, op := SymbolEntry(s.lt, LITERALS + 1, Cplens(), Cplext(), n);
      EntryOps(n);
      FromParts(s, i, ToBits(v, k));
    }
  }

  /** The symbol that item i, or the ending, begins with. */
  ghost function FirstSymbol(s: Script, i: nat): nat
    requires i <= |s.items| && (i == |s.items| ==> !s.ending.BadLength?)
  {
    if i < |s.items| then (if s.items[i].Lit? then s.items[i].b else LITERALS + 1 + s.items[i].c)
    else if s.ending.EndOfBlock? then END_BLOCK else LITERALS + 1 + s.ending.c
  }

  lemma SymbolCoded(s: Script, i: nat)
    requires s.Valid() && i <= |s.items| && (i == |s.items| ==> !s.ending.BadLength?)
    ensures s.lt.Codes(FirstSymbol(s, i))
    ensures i < |s.items| && s.items[i].Lit? ==> s.items[i].b < 256
    ensures s.HasLength(i) ==> LengthOk(s.LenCode(i), s.LenExtra(i)) && FirstSymbol(s, i) == LITERALS + 1 + s.LenCode(i) <= 285
  {
    hide Script.Tabled, Table.Codes, Plan.IsCode, ExtraLbits, ExtraDbits, Pow2, Item.Token;
    if i < |s.items| {
      assert s.Sends(s.items[i]);
    }
  }

  /** The code of a symbol and its entry. */
  lemma SymbolEntry(t: Table, s: nat, d: seq<nat>, e: seq<nat>, n: nat) returns (k: nat, v: nat, op: Op)
    requires t.Valid(s, d, e) && t.Codes(n)
    ensures n < |t.lens| && t.f.IsCode(k, v) && op == t.f.pay(k, v) == OpOf(n, s, d, e) && t.Book().Word(n) == ToBits(v, k)
  {
    hide Plan.IsCode, NoSkip, CanonicalCodes.Code, BookOf, Plan.Valid, Sound, AllSet, ToBits;
    SymbolBelow(t.lens, n);
    k, v := t.lens[n], CanonicalCodes.Code(Symbols(t.lens), t.lens, t.f.c, n);
    op := t.f.pay(k, v);
    BookWord(t.lens, t.f.c, n);
  }

  lemma SymbolBelow(lens: seq<nat>, n: nat)
    requires n in Symbols(lens)
    ensures n < |lens|
  {
  }

  /** What the entries of literal and length symbols are. */
  lemma EntryOps(n: nat)
    ensures n < 256 ==> OpOf(n, LITERALS + 1, Cplens(), Cplext()) == Op(0, n)
    ensures n == 256 ==> OpOf(n, LITERALS + 1, Cplens(), Cplext()) == Op(96, 256)
    ensures 257 <= n <= 285 ==>
              OpOf(n, LITERALS + 1, Cplens(), Cplext()) == Op(ExtraLbits()[n - 257] + 80, Cplens()[n - 257]) && ExtraLbits()[n - 257] <= 5
  {
    hide Cplens;
    if 257 <= n <= 285 {
      LbitsAt(n - 257);
    }
    hide ExtraLbits, Cplext;
  }

  /** What follows the first word. */
  lemma FromParts(s: Script, i: nat, word: seq<bool>)
    requires s.Valid() && i <= |s.items| && (i == |s.items| ==> !s.ending.BadLength?)
    requires word == s.lt.Book().Word(FirstSymbol(s, i))
    ensures word <= s.From(i)
    ensures i < |s.items| && s.items[i].Lit? ==> s.From(i)[|word|..] == s.From(i + 1)
    ensures s.HasLength(i) ==> AtExtra(s, i, s.From(i)[|word|..])
    ensures i == |s.items| && s.ending.EndOfBlock? ==> s.From(i)[|word|..] == s.tail
  {
    hide Tabled, LowBits, BookOf, Cplens, Cplext, Cpdist, Cpdext, Codebook.Code.Word, ExtraLbits, ExtraDbits, Item.Token, Pow2;
    if i < |s.items| && s.items[i].Lit? {
      Split(word, s.From(i + 1));
    } else if i == |s.items| && s.ending.EndOfBlock? {
      Split(word, s.tail);
    } else {
      MatchParts(s, i, word);
    }
  }

  lemma MatchParts(s: Script, i: nat, word: seq<bool>)
    requires s.Valid() && i <= |s.items| && s.HasLength(i) && word == s.lt.Book().Word(FirstSymbol(s, i))
    ensures word <= s.From(i) && AtExtra(s, i, s.From(i)[|word|..])
  {
    hide Tabled, LowBits, BookOf, Cplens, Cplext, Cpdist, Cpdext, Codebook.Code.Word, ExtraLbits, ExtraDbits, Item.Token, Pow2;
    SymbolCoded(s, i);
    var e := LowBits(s.LenExtra(i), ExtraLbits()[s.LenCode(i)]);
    if i < |s.items| {
      assert s.Sends(s.items[i]);
      Regrouped(word, e, s.DistanceBits(s.items[i].dc, s.items[i].y), s.From(i + 1));
    } else {
      Regrouped(word, e, ToBits(s.ending.v, s.ending.k), s.tail);
    }
    Split(word, e + s.AfterLength(i));
  }

  lemma Split(word: seq<bool>, rest: seq<bool>)
    ensures word <= word + rest && (word + rest)[|word|..] == rest
  {
  }

  lemma Regrouped(a: seq<bool>, b: seq<bool>, c: seq<bool>, d: seq<bool>)
    ensures ((a + b) + c) + d == a + (b + (c + d))
  {
  }

  // ----- what a distance code leads to

  lemma NextDistance(s: Script, i: nat) returns (k: nat, v: nat, op: Op)
    requires s.Valid() && i <= |s.items| && s.HasLength(i)
    ensures s.dt.f.IsCode(k, v) && op == s.dt.f.pay(k, v) && ToBits(v, k) <= s.AfterLength(i)
    ensures i < |s.items| ==>
              var dc, y := s.items[i].dc, s.items[i].y;
              && dc < D_CODES && ExtraDbits()[dc] <= 13 && op == Op(ExtraDbits()[dc] + 80, Cpdist()[dc])
              && s.AfterLength(i)[k..] == LowBits(y, ExtraDbits()[dc]) + s.From(i + 1)
    ensures i == |s.items| ==> IsInvalid(op) && s.AfterLength(i)[k..] == s.tail
  {
    hide Tabled, NoSkip, Plan.IsCode, ToBits, LowBits, CanonicalCodes.Code, BookOf, Cplens, Cplext, Cpdist, Cpdext,
      ExtraLbits, ExtraDbits, Script.From, Pow2, Item.Token;
    if i < |s.items| {
      var dc, y := s.items[i].dc, s.items[i].y;
      assert s.Sends(s.items[i]);
      k, v, op := SymbolEntry(s.dt, 0, Cpdist(), Cpdext(), dc);
      DistanceOps(dc);
      Regrouped([], ToBits(v, k), LowBits(y, ExtraDbits()[dc]), s.From(i + 1));
      assert s.AfterLength(i) == ToBits(v, k) + (LowBits(y, ExtraDbits()[dc]) + s.From(i + 1));
    } else {
      k, v := s.ending.k, s.ending.v;
      op := s.dt.f.pay(k, v);
      assert s.AfterLength(i) == ToBits(v, k) + s.tail;
    }
  }

  lemma DistanceOps(n: nat)
    requires n < D_CODES
    ensures OpOf(n, 0, Cpdist(), Cpdext()) == Op(ExtraDbits()[n] + 80, Cpdist()[n]) && ExtraDbits()[n] <= 13
  {
    hide Cpdist;
    DbitsAt(n);
    hide ExtraDbits, Cpdext;
  }

  // ----- one look-up in a table

  /** r links to the table that the bits dropped lead to. */
  ghost predicate Follows(t: Table, r: Huft, past: seq<bool>, rest: seq<bool>) {
    && r.Huft? && 1 <= r.bits <= |rest| && r.more < |t.ms| && r.exop == t.ms[r.more].j
    && AtTable(t.f, t.Work(), r.more, past + rest[..r.bits]) && (past + rest[..r.bits]) + rest[r.bits..] == past + rest
  }

  /** r is for the code of k bits that stands for op. */
  ghost predicate Tells(r: Huft, op: Op, k: nat, past: seq<bool>, rest: seq<bool>) {
    && r.Huft? && 1 <= r.bits <= |rest| && k == |past| + r.bits && r.exop == op.exop && r.more == op.base
    && rest[r.bits..] == (past + rest)[k..]
  }

  /** The table that is looked at. */
  ghost predicate Looked(t: Table, n: nat, past: seq<bool>) {
    && n < |t.tables| == |t.ms| && 1 <= t.ms[n].j && t.ms[n].w + t.ms[n].j <= 15
    && |t.tables[n]| == Pow2(t.ms[n].j) && |past| == t.ms[n].w
  }

  /** At table n, with the bits `past` behind and bits to come that begin, after `past`, the code (k, v): the entry is a
      link further along the code, or the code's own. */
  lemma LookUp(t: Table, s: nat, d: seq<nat>, e: seq<nat>, n: nat, past: seq<bool>, look: seq<bool>, rest: seq<bool>, k: nat, v: nat)
    requires t.Valid(s, d, e) && AtTable(t.f, t.Work(), n, past) && look <= rest
    requires t.f.IsCode(k, v) && ToBits(v, k) <= past + rest
    ensures Looked(t, n, past)
    ensures t.ms[n].j <= |look| ==>
              var r := EntryAt(t.Work(), n, look);
              && r.Huft? && r.bits <= t.ms[n].j
              && if IsLink(r) then Follows(t, r, past, rest) else Tells(r, t.f.pay(k, v), k, past, rest)
  {
    TableParts(t, s, d, e, n, past);
    hide Reached, Table.Valid, Plan.Valid, Plan.IsCode, Sound, AllSet, AtTable, EntryAt, Follows, Tells, IsLink, Pow2, ToBits;
    if t.ms[n].j <= |look| {
      SetLooked(t, n, look);
      if IsLink(EntryAt(t.Work(), n, look)) {
        LinkLooked(t, n, past, look, rest);
      } else {
        LeafLooked(t, n, past, look, rest, k, v);
      }
    }
  }

  /** The table of a valid decoder that has been reached. */
  ghost predicate Reached(t: Table, n: nat, past: seq<bool>) {
    && t.f.Valid() && t.f.g <= 15 && Sound(t.f, t.Work()) && AllSet(t.tables) && AtTable(t.f, t.Work(), n, past)
    && n < |t.tables| == |t.ms| && 1 <= t.ms[n].j && t.ms[n].w + t.ms[n].j <= t.f.g && |t.tables[n]| == Pow2(t.ms[n].j)
  }

  lemma SetLooked(t: Table, n: nat, look: seq<bool>)
    requires AllSet(t.tables) && n < |t.tables| == |t.ms| && |t.tables[n]| == Pow2(t.ms[n].j) && t.ms[n].j <= |look|
    ensures EntryAt(t.Work(), n, look).Huft?
  {
    hide AllSet, EntryAt, Pow2;
    SetEntry(t.Work(), n, look);
  }

  lemma LinkLooked(t: Table, n: nat, past: seq<bool>, look: seq<bool>, rest: seq<bool>)
    requires Reached(t, n, past) && look <= rest && t.ms[n].j <= |look|
    requires IsLink(EntryAt(t.Work(), n, look))
    ensures var r := EntryAt(t.Work(), n, look);
            r.Huft? && r.bits <= t.ms[n].j && Follows(t, r, past, rest)
  {
    hide Plan.Valid, Sound, AllSet, ToBits, EntryAt, Pow2;
    var r := EntryAt(t.Work(), n, look);
    LinkReaches(t.f, t.Work(), n, past, look);
    assert look[..r.bits] == rest[..r.bits];
    assert (past + rest[..r.bits]) + rest[r.bits..] == past + rest;
  }

  lemma LeafLooked(t: Table, n: nat, past: seq<bool>, look: seq<bool>, rest: seq<bool>, k: nat, v: nat)
    requires Reached(t, n, past) && look <= rest && t.ms[n].j <= |look|
    requires t.f.IsCode(k, v) && ToBits(v, k) <= past + rest
    requires EntryAt(t.Work(), n, look).Huft? && !IsLink(EntryAt(t.Work(), n, look))
    ensures var r := EntryAt(t.Work(), n, look);
            r.bits <= t.ms[n].j && Tells(r, t.f.pay(k, v), k, past, rest)
  {
    hide Plan.IsCode, Plan.Valid, Sound, AllSet, ToBits, EntryAt, Pow2, IsLink, AtTable;
    var r := EntryAt(t.Work(), n, look);
    var k', v' := LeafWord(t.f, t.Work(), n, past, look);
    assert look[..r.bits] == rest[..r.bits];
    assert past + look[..r.bits] == (past + rest)[..k'];
    SameCode(t.f, k', v', k, v, past + rest);
  }

  lemma TableParts(t: Table, s: nat, d: seq<nat>, e: seq<nat>, n: nat, past: seq<bool>)
    requires t.Valid(s, d, e) && AtTable(t.f, t.Work(), n, past)
    ensures Reached(t, n, past)
    ensures Looked(t, n, past) && AllSet(t.tables)
  {
    hide NoSkip, Plan.Valid, AllSet, ToBits, Symbols, Plan.IsCode, CanonicalCodes.Code;
    SoundTable(t.f, t.Work(), n);
  }

  /** No table of a decoder is wider than the first. */
  lemma FirstIsWidest(t: Table, s: nat, d: seq<nat>, e: seq<nat>, n: nat)
    requires t.Valid(s, d, e) && n < |t.ms|
    ensures t.ms[n].j <= t.bits
  {
    hide NoSkip, AllSet, Sound, Plan.Valid, Symbols, Plan.IsCode, CanonicalCodes.Code;
  }

  /** Decoding starts at the first table. */
  lemma FirstTableReached(t: Table, s: nat, d: seq<nat>, e: seq<nat>)
    requires t.Valid(s, d, e)
    ensures AtTable(t.f, t.Work(), 0, []) && Looked(t, 0, []) && t.ms[0].j == t.bits
  {
    FirstTable(t, s, d, e);
    hide Table.Valid, AtTable, Pow2;
    TableParts(t, s, d, e, 0, []);
  }

  lemma FirstTable(t: Table, s: nat, d: seq<nat>, e: seq<nat>)
    requires t.Valid(s, d, e)
    ensures AtTable(t.f, t.Work(), 0, []) && |t.ms| > 0 && t.ms[0] == Meta(0, 0, t.bits)
  {
    hide NoSkip, Plan.Valid, AllSet, Symbols, Plan.IsCode, CanonicalCodes.Code, Sound;
  }
}
