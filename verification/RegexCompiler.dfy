/** The compiler: it appends to, inserts into and patches one byte buffer. */
module RegexCompiler {
  import opened Basics
  import opened DynBufs
  import opened Intervals
  import opened RegexSyntax
  import opened RegexOutcomes
  import opened RegexClass
  import opened RegexCode
  import opened RegexGen
  import opened RegexAdvance

  // ----- Bytes of code pieces -----

  lemma BytesUnit(i: Instr)
    ensures Bytes([i]) == Encode(i) && Len([i]) == Size(i)
  {
    assert [i][1..] == [];
    assert Encode(i) + [] == Encode(i);
  }

  lemma BytesHead(i: Instr, f: Code)
    ensures Bytes([i] + f) == Encode(i) + Bytes(f) && Len([i] + f) == Size(i) + Len(f)
  {
    assert ([i] + f)[1..] == f;
  }

  lemma BytesSnoc(f: Code, i: Instr)
    ensures Bytes(f + [i]) == Bytes(f) + Encode(i) && Len(f + [i]) == Len(f) + Size(i)
  {
    BytesConcat(f, [i]);
    BytesUnit(i);
  }

  // ----- The linear scans -----

  /** Interval counts fit the 16-bit field the scans read. */
  ghost predicate CountsFit(f: Code) {
    forall k :: 0 <= k < |f| && f[k].IRange? ==> |f[k].pairs| < TWO16
  }

  lemma CountsAt(f: Code, k: nat)
    requires CountsFit(f) && k < |f|
    ensures f[k].IRange? ==> |f[k].pairs| < TWO16
  {
  }

  lemma CountsConcat(f: Code, g: Code)
    ensures CountsFit(f + g) <==> CountsFit(f) && CountsFit(g)
  {
    if CountsFit(f + g) {
      forall k | 0 <= k < |f| && f[k].IRange? ensures |f[k].pairs| < TWO16 { assert (f + g)[k] == f[k]; }
      forall k | 0 <= k < |g| && g[k].IRange? ensures |g[k].pairs| < TWO16 { assert (f + g)[|f| + k] == g[k]; }
    }
  }

  lemma CountsQuant(a: Code, cc: nat, groups: nat, min: nat, max: nat, greedy: bool)
    requires CountsFit(a)
    ensures CountsFit(QuantCode(a, cc, groups, min, max, greedy))
  {
    hide Len, SimpleLength, CheckAdvance, UsesGreedy;
    if UsesGreedy(a, max, greedy) {
      CountsConcat(a, [IMatch]);
    } else {
      var check := NeedsCheck(a, greedy);
      CountsTails(a, min, max, greedy, check);
      CountsConcat(ResetCode(groups, cc), TailFromZero(a, max, greedy, check));
      CountsConcat(a, [ISplit(!greedy, Back(Len(a)))]);
      CountsConcat(MinCode(a, min), TailFromMin(a, min, max, greedy, check));
    }
  }

  lemma CountsTails(a: Code, min: nat, max: nat, greedy: bool, check: bool)
    requires CountsFit(a)
    ensures CountsFit(TailFromZero(a, max, greedy, check)) && CountsFit(MinCode(a, min))
    ensures CountsFit(TailFromMin(a, min, max, greedy, check))
  {
    hide Len, CountsFit, InfiniteLoop, CountedLoop, FixedLoop, OptionalCode;
    CountsLoops(a, check, greedy);
    CountsCounted(a, max, greedy);
    if max > min { CountsCounted(a, max - min, greedy); }
    CountsCounted(a, min, greedy);
    assert CountsFit([]) by { CountsNone(); }
  }

  lemma CountsNone()
    ensures CountsFit([])
  {
  }

  lemma CountsLoops(a: Code, check: bool, greedy: bool)
    requires CountsFit(a)
    ensures CountsFit(InfiniteLoop(a, check, greedy)) && CountsFit(OptionalCode(a, greedy))
  {
    hide Len;
  }

  lemma CountsCounted(a: Code, n: nat, greedy: bool)
    requires CountsFit(a)
    ensures CountsFit(CountedLoop(a, n, greedy)) && CountsFit(FixedLoop(a, n))
  {
    hide Len;
  }

  lemma {:induction false} CountsGen(r: Re, cc: nat)
    requires SmallClasses(r)
    ensures CountsFit(Gen(r, cc))
    decreases r
  {
    hide CountsFit, Len, QuantCode;
    match r
    case Cat(a, b) =>
      CountsGen(a, cc);
      CountsGen(b, cc + Groups(a));
      CountsConcat(Gen(a, cc), Gen(b, cc + Groups(a)));
    case Alt(a, b) =>
      CountsGen(a, cc);
      CountsGen(b, cc + Groups(a));
      CountsAlt(Gen(a, cc), Gen(b, cc + Groups(a)));
    case Group(b) =>
      CountsGen(b, cc + 1);
      CountsGroup(cc, Gen(b, cc + 1));
    case Look(negated, b) =>
      CountsGen(b, cc);
      CountsLook(negated, Gen(b, cc));
    case Quant(b, min, max, greedy) =>
      CountsGen(b, cc);
      CountsQuant(Gen(b, cc), cc, Groups(b), min, max, greedy);
    case _ => CountsUnit(r, cc);
  }

  lemma CountsUnit(r: Re, cc: nat)
    requires SmallClasses(r) && !r.Cat? && !r.Alt? && !r.Group? && !r.Look? && !r.Quant?
    ensures CountsFit(Gen(r, cc))
  {
  }

  lemma CountsAlt(a: Code, b: Code)
    requires CountsFit(a) && CountsFit(b)
    ensures CountsFit(AltCode(a, b))
  {
    hide Len;
  }

  lemma CountsGroup(cc: nat, a: Code)
    requires CountsFit(a)
    ensures CountsFit(GroupCode(cc, a))
  {
  }

  lemma CountsLook(negated: bool, a: Code)
    requires CountsFit(a)
    ensures CountsFit(LookCode(negated, a))
  {
    hide Len;
  }

  /** The scans recognise each instruction by its opcode and step over it. */
  lemma ScanStep(b: seq<byte>, p: nat, i: Instr)
    requires Stored(b, p, Encode(i)) && (i.IRange? ==> |i.pairs| < TWO16)
    ensures p < |b| && b[p] == Opcode(i) && p + Size(i) <= |b|
    ensures i.IRange? ==> p + 3 <= |b| && GetU16(b, p + 1) == |i.pairs|
  {
    StoredConcat(b, p, [Opcode(i)], Operands(i));
    assert b[p] == b[p..p + 1][0];
    if i.IRange? {
      StoredConcat(b, p + 1, U16Bytes(|i.pairs|), PairsBytes(i.wide, i.pairs));
      U16RoundTrip(b, p + 1, |i.pairs|);
    }
  }

  lemma SplitAt(f: Code, k: nat)
    requires k < |f|
    ensures f[..k] + ([f[k]] + f[k + 1..]) == f && f[..k] + [f[k]] == f[..k + 1]
  {
  }

  lemma BytesSplit(f: Code, k: nat)
    requires k < |f|
    ensures Bytes(f) == Bytes(f[..k]) + (Encode(f[k]) + Bytes(f[k + 1..]))
    ensures Len(f[..k + 1]) == Len(f[..k]) + Size(f[k])
  {
    hide Bytes, Encode, Len;
    SplitAt(f, k);
    BytesConcat(f[..k], [f[k]] + f[k + 1..]);
    BytesHead(f[k], f[k + 1..]);
    BytesSnoc(f[..k], f[k]);
  }

  lemma InstrStored(b: seq<byte>, f: Code, k: nat)
    requires b == Bytes(f) && k < |f|
    ensures Stored(b, Len(f[..k]), Encode(f[k]))
    ensures Len(f[..k + 1]) == Len(f[..k]) + Size(f[k])
  {
    hide Bytes, Encode, Len;
    BytesSplit(f, k);
    var x, y := Bytes(f[..k]), Encode(f[k]) + Bytes(f[k + 1..]);
    assert Stored(b, 0, x + y) by { assert b == b[0..|x + y|]; }
    StoredConcat(b, 0, x, y);
    StoredConcat(b, |x|, Encode(f[k]), Bytes(f[k + 1..]));
  }

  lemma ScanSnoc(f: Code, i: Instr)
    ensures ScanAdvance(f + [i]) ==
            if ScanAdvance(f) != -2 then ScanAdvance(f) else if IsTest(i) then 1 else if IsNeutral(i) then -2 else 0
    ensures SimpleLength(f + [i]) ==
            if SimpleLength(f) < 0 || !(IsTest(i) || IsAssertion(i)) then -1 else SimpleLength(f) + if IsTest(i) then 1 else 0
  {
    ScanConcat(f, [i]);
    UnitScan(i);
  }

  lemma NothingScanned(f: Code)
    ensures Len(f[..0]) == 0 && ScanAdvance(f[..0]) == -2 && SimpleLength(f[..0]) == 0
  {
  }

  /** What a scan sees at offset `p` when the instruction there is `i`. */
  ghost predicate ScannedAt(b: seq<byte>, p: nat, i: Instr) {
    && p + Size(i) <= |b| && b[p] == Opcode(i)
    && (i.IRange? ==> p + 3 <= |b| && GetU16(b, p + 1) == |i.pairs|)
    && (i.IRange? <==> b[p] in {21, 22})
    && (TestOpcode(b[p]) <==> IsTest(i))
    && (NeutralOpcode(b[p]) <==> IsNeutral(i))
    && (b[p] in {5, 6, 17, 18} <==> IsAssertion(i))
    && Size(i) == OpcodeSize(b[p]) + if i.IRange? then Width(b[p] == 22) * |i.pairs| else 0
  }

  /** The instruction a scan finds after `k` instructions. */
  lemma ScanHere(b: seq<byte>, f: Code, k: nat)
    requires b == Bytes(f) && CountsFit(f) && k <= |f| && Len(f[..k]) < |b|
    ensures k < |f| && ScannedAt(b, Len(f[..k]), f[k])
    ensures Len(f[..k + 1]) == Len(f[..k]) + Size(f[k]) && f[..k + 1] == f[..k] + [f[k]]
  {
    hide Bytes, Encode, Len, Stored, Size, CountsFit, ScannedAt;
    ScanInside(f, k);
    InstrStored(b, f, k);
    CountsAt(f, k);
    ScannedIs(b, Len(f[..k]), f[k]);
  }

  lemma ScanInside(f: Code, k: nat)
    requires k <= |f| && Len(f[..k]) < Len(f)
    ensures k < |f| && f[..k + 1] == f[..k] + [f[k]]
  {
    assert f[..|f|] == f;
  }

  lemma ScannedIs(b: seq<byte>, p: nat, i: Instr)
    requires Stored(b, p, Encode(i)) && (i.IRange? ==> |i.pairs| < TWO16)
    ensures ScannedAt(b, p, i)
  {
    hide Encode, Stored, Opcode, OpcodeSize, Size, GetU16, Width;
    hide IsTest, IsNeutral, IsAssertion, TestOpcode, NeutralOpcode;
    ScanStep(b, p, i);
    OpcodeKinds(i);
  }

  lemma ScanEnds(f: Code, k: nat)
    requires k <= |f| && Len(f[..k]) >= Len(f)
    ensures f[..k] == f
  {
    hide Bytes, Encode;
    if k < |f| {
      BytesSplit(f, k);
    }
  }

  lemma SimplePrefix(f: Code, k: nat)
    requires k <= |f| && SimpleLength(f[..k]) < 0
    ensures SimpleLength(f) == -1
  {
    ScanConcat(f[..k], f[k..]);
    assert f == f[..k] + f[k..];
  }

  predicate TestOpcode(op: byte) {
    op in {1, 2, 3, 4, 21, 22}
  }

  predicate NeutralOpcode(op: byte) {
    op in {5, 6, 11, 12, 13, 15, 16, 17, 18, 25}
  }

  lemma OpcodeKinds(i: Instr)
    ensures TestOpcode(Opcode(i)) <==> IsTest(i)
    ensures NeutralOpcode(Opcode(i)) <==> IsNeutral(i)
    ensures Opcode(i) in {5, 6, 17, 18} <==> IsAssertion(i)
    ensures Size(i) == OpcodeSize(Opcode(i)) + if i.IRange? then Width(i.wide) * |i.pairs| else 0
    ensures i.IRange? <==> Opcode(i) in {21, 22}
    ensures i.IRange? ==> (i.wide <==> Opcode(i) == 22)
  {
  }

  /** Bytes of the instruction at `pos`, counting the intervals of a range. */
  method SizeAt(buf: seq<byte>, pos: nat) returns (len: nat)
    requires pos < |buf| && (buf[pos] in {21, 22} ==> pos + 3 <= |buf|)
    ensures len == OpcodeSize(buf[pos]) +
                   if buf[pos] in {21, 22} then Width(buf[pos] == 22) * GetU16(buf, pos + 1) else 0
  {
    len := OpcodeSize(buf[pos]);
    if buf[pos] == 21 {
      len := len + GetU16(buf, pos + 1) * 4;
    } else if buf[pos] == 22 {
      len := len + GetU16(buf, pos + 1) * 8;
    }
  }

  /** Whether the code of an atom always consumes a character, read off its bytes. */
  method CheckAdvanceScan(buf: seq<byte>, ghost f: Code) returns (ret: int)
    requires buf == Bytes(f) && CountsFit(f)
    ensures ret == CheckAdvance(f)
  {
    hide Bytes, Encode, Len, ScanAdvance, Stored;
    ret := -2;
    var pos := 0;
    ghost var k := 0;
    NothingScanned(f);
    while pos < |buf|
      invariant 0 <= k <= |f| && pos == Len(f[..k]) && ret == ScanAdvance(f[..k]) && -2 <= ret <= 1 && ret != -1
      decreases |f| - k
    {
      ScanHere(buf, f, k);
      ScanSnoc(f[..k], f[k]);
      var opcode := buf[pos];
      var len := SizeAt(buf, pos);
      if TestOpcode(opcode) {
        if ret == -2 { ret := 1; }
      } else if NeutralOpcode(opcode) {
      } else {
        if ret == -2 { ret := 0; }
      }
      pos := pos + len;
      k := k + 1;
    }
    ScanEnds(f, k);
    if ret == -2 { ret := 0; }
  }

  /** The characters consumed by straight-line code, read off its bytes, or -1. */
  method SimpleQuantifierScan(buf: seq<byte>, ghost f: Code) returns (count: int)
    requires buf == Bytes(f) && CountsFit(f)
    ensures count == SimpleLength(f)
  {
    hide Bytes, Encode, Len, SimpleLength, Stored;
    count := 0;
    var pos := 0;
    ghost var k := 0;
    NothingScanned(f);
    while pos < |buf|
      invariant 0 <= k <= |f| && pos == Len(f[..k]) && count == SimpleLength(f[..k]) >= 0
      decreases |f| - k
    {
      ScanHere(buf, f, k);
      ScanSnoc(f[..k], f[k]);
      var opcode := buf[pos];
      var len := SizeAt(buf, pos);
      if TestOpcode(opcode) {
        count := count + 1;
      } else if opcode in {5, 6, 17, 18} {
      } else {
        SimplePrefix(f, k + 1);
        return -1;
      }
      pos := pos + len;
      k := k + 1;
    }
    ScanEnds(f, k);
  }

  // ----- The bytes of each construct -----

  function SplitOp(greedy: bool): byte {
    if greedy then 9 else 8
  }

  lemma JumpBytes(op: byte, off: int)
    ensures op == 7 ==> Encode(IGoto(off)) == [op] + U32Bytes(off)
    ensures op == 8 ==> Encode(ISplit(false, off)) == [op] + U32Bytes(off)
    ensures op == 9 ==> Encode(ISplit(true, off)) == [op] + U32Bytes(off)
    ensures op == 14 ==> Encode(ILoop(off)) == [op] + U32Bytes(off)
    ensures op == 15 && off >= 0 ==> Encode(IPush(off)) == [op] + U32Bytes(off)
    ensures op == 23 ==> Encode(ILook(false, off)) == [op] + U32Bytes(off)
    ensures op == 24 ==> Encode(ILook(true, off)) == [op] + U32Bytes(off)
    ensures op == 26 ==> Encode(IBnePos(off)) == [op] + U32Bytes(off)
  {
  }

  lemma SmallBytes()
    ensures Encode(IMatch) == [10] && Encode(IDrop) == [16] && Encode(IPushPos) == [25]
  {
  }

  function InfiniteLoopBytes(b: seq<byte>, check: bool, greedy: bool): seq<byte> {
    if check then
      ([SplitOp(greedy)] + U32Bytes(|b| + 6)) + ([25] + (b + ([26] + U32Bytes(Back(|b| + 6)))))
    else
      ([SplitOp(greedy)] + U32Bytes(|b| + 5)) + (b + ([7] + U32Bytes(Back(|b| + 5))))
  }

  lemma InfiniteBytes(a: Code, check: bool, greedy: bool)
    ensures Bytes(InfiniteLoop(a, check, greedy)) == InfiniteLoopBytes(Bytes(a), check, greedy)
  {
    hide Bytes, Encode, Len;
    SmallBytes();
    if check {
      JumpBytes(SplitOp(greedy), Len(a) + 6);
      JumpBytes(26, Back(Len(a) + 6));
      BytesSnoc(a, IBnePos(Back(Len(a) + 6)));
      BytesHead(IPushPos, a + [IBnePos(Back(Len(a) + 6))]);
      BytesHead(ISplit(greedy, Len(a) + 6), [IPushPos] + (a + [IBnePos(Back(Len(a) + 6))]));
    } else {
      JumpBytes(SplitOp(greedy), Len(a) + 5);
      JumpBytes(7, Back(Len(a) + 5));
      BytesSnoc(a, IGoto(Back(Len(a) + 5)));
      BytesHead(ISplit(greedy, Len(a) + 5), a + [IGoto(Back(Len(a) + 5))]);
    }
  }

  lemma LoopEndBytes(a: Code, off: int)
    ensures Bytes(LoopEnd(a, off)) == Bytes(a) + (([14] + U32Bytes(off)) + [16])
  {
    hide Bytes, Encode, Len;
    SmallBytes();
    JumpBytes(14, off);
    BytesUnit(IDrop);
    BytesHead(ILoop(off), [IDrop]);
    BytesConcat(a, [ILoop(off)] + [IDrop]);
  }

  lemma CountedBytes(a: Code, n: nat, greedy: bool)
    ensures Bytes(CountedLoop(a, n, greedy)) ==
            ([15] + U32Bytes(n)) + (([SplitOp(greedy)] + U32Bytes(Len(a) + 5)) +
            (Bytes(a) + (([14] + U32Bytes(Back(Len(a) + 5))) + [16])))
  {
    hide Bytes, Encode, Len;
    var e := LoopEnd(a, Back(Len(a) + 5));
    LoopEndBytes(a, Back(Len(a) + 5));
    JumpBytes(SplitOp(greedy), Len(a) + 5);
    JumpBytes(15, n);
    BytesHead(ISplit(greedy, Len(a) + 5), e);
    BytesHead(IPush(n), [ISplit(greedy, Len(a) + 5)] + e);
  }

  lemma FixedBytes(a: Code, n: nat)
    ensures Bytes(FixedLoop(a, n)) == ([15] + U32Bytes(n)) + (Bytes(a) + (([14] + U32Bytes(Back(Len(a)))) + [16]))
  {
    hide Bytes, Encode, Len;
    LoopEndBytes(a, Back(Len(a)));
    JumpBytes(15, n);
    BytesHead(IPush(n), LoopEnd(a, Back(Len(a))));
  }

  lemma PlusBytes(a: Code, greedy: bool)
    ensures Bytes(PlusLoop(a, greedy)) == Bytes(a) + ([SplitOp(!greedy)] + U32Bytes(Back(Len(a))))
  {
    hide Bytes, Encode, Len;
    JumpBytes(SplitOp(!greedy), Back(Len(a)));
    BytesSnoc(a, ISplit(!greedy, Back(Len(a))));
  }

  lemma OptionalBytes(a: Code, greedy: bool)
    ensures Bytes(OptionalCode(a, greedy)) == ([SplitOp(greedy)] + U32Bytes(Len(a))) + Bytes(a)
  {
    hide Bytes, Encode, Len;
    JumpBytes(SplitOp(greedy), Len(a));
    BytesHead(ISplit(greedy, Len(a)), a);
  }

  lemma GreedyBytes(a: Code, min: nat, max: nat)
    requires SimpleLength(a) >= 0
    ensures Bytes(GreedyCode(a, min, max)) ==
            ([28] + U32Bytes(Len(a) + 1) + U32Bytes(min) + U32Bytes(max) + U32Bytes(SimpleLength(a))) + (Bytes(a) + [10])
  {
    hide Bytes, Len, SimpleLength, U32Bytes;
    SmallBytes();
    BytesSnoc(a, IMatch);
    var g := IGreedy(Len(a) + 1, min, max, SimpleLength(a));
    BytesHead(g, a + [IMatch]);
    assert Encode(g) == [28] + U32Bytes(Len(a) + 1) + U32Bytes(min) + U32Bytes(max) + U32Bytes(SimpleLength(a));
  }

  lemma ResetBytes(lo: nat, hi: nat)
    ensures Bytes([ISaveReset(lo, hi)]) == [13] + [lo % 256] + [hi % 256]
  {
    BytesUnit(ISaveReset(lo, hi));
  }

  lemma AltBytes(a: Code, b: Code)
    ensures Bytes(AltCode(a, b)) == ([9] + U32Bytes(Len(a) + 5)) + (Bytes(a) + (([7] + U32Bytes(Len(b))) + Bytes(b)))
  {
    hide Bytes, Encode, Len;
    JumpBytes(9, Len(a) + 5);
    JumpBytes(7, Len(b));
    BytesHead(IGoto(Len(b)), b);
    BytesConcat(a, [IGoto(Len(b))] + b);
    BytesHead(ISplit(true, Len(a) + 5), a + ([IGoto(Len(b))] + b));
  }

  lemma GroupBytes(cc: nat, a: Code)
    ensures Bytes(GroupCode(cc, a)) == ([11] + [cc % 256]) + (Bytes(a) + ([12] + [cc % 256]))
  {
    hide Bytes, Len;
    BytesSnoc(a, ISave(true, cc));
    BytesHead(ISave(false, cc), a + [ISave(true, cc)]);
  }

  lemma LookBytes(negated: bool, a: Code)
    ensures Bytes(LookCode(negated, a)) ==
            ([if negated then 24 else 23] + U32Bytes(Len(a) + 1)) + (Bytes(a) + [10])
  {
    hide Bytes, Encode, Len, U32Bytes;
    SmallBytes();
    JumpBytes(if negated then 24 else 23, Len(a) + 1);
    BytesSnoc(a, IMatch);
    BytesHead(ILook(negated, Len(a) + 1), a + [IMatch]);
  }

  lemma NoBytes()
    ensures Bytes([]) == []
  {
  }

  lemma EvenPoints(points: seq<int>)
    requires Compressed(points)
    ensures |points| % 2 == 0
  {
  }

  lemma CharBytes(c: int)
    ensures Bytes([IChar(c)]) == [1] + U16Bytes(c) && Bytes([IChar32(c)]) == [2] + U32Bytes(c)
  {
    BytesUnit(IChar(c));
    BytesUnit(IChar32(c));
  }

  lemma FlatBytes()
    ensures Bytes([IDot]) == [3] && Bytes([ILineStart]) == [5] && Bytes([ILineEnd]) == [6]
    ensures Bytes([IWord(false)]) == [17] && Bytes([IWord(true)]) == [18]
  {
    BytesUnit(IDot);
    BytesUnit(ILineStart);
    BytesUnit(ILineEnd);
    BytesUnit(IWord(false));
    BytesUnit(IWord(true));
  }

  lemma Filled(pre: seq<byte>, gap: seq<byte>, post: seq<byte>, w: seq<byte>)
    requires |w| <= |gap|
    ensures var all := pre + gap + post;
            all[..|pre|] + w + all[|pre| + |w|..] == (pre + w) + gap[|w|..] + post
  {
  }

  lemma Four(pre: seq<byte>, a: seq<byte>, b: seq<byte>, c: seq<byte>, post: seq<byte>)
    ensures (((pre + a) + b) + c) + [] + post == pre + (a + b + c + post)
    ensures (((pre + a) + b) + c) + [] + post == pre + (a + b + c) + post
  {
  }

  lemma Five(pre: seq<byte>, a: seq<byte>, b: seq<byte>, body: seq<byte>, d: seq<byte>)
    ensures pre + a + b + body + d == pre + (a + (b + (body + d))) && ((pre + a) + b) + [] + body + d == pre + (a + (b + (body + d)))
    ensures b == [] ==> pre + a + body + d == pre + (a + (body + d))
  {
  }

  lemma Six(pre: seq<byte>, a: seq<byte>, b: seq<byte>, body: seq<byte>, c: seq<byte>, d: seq<byte>)
    ensures pre + a + b + body + c + d == pre + (a + (b + (body + (c + d))))
    ensures ((pre + a) + b) + [] + body + c + d == pre + (a + (b + (body + (c + d))))
  {
  }

  lemma LookPieces(pre: seq<byte>, op: byte, jump: seq<byte>, body: seq<byte>)
    ensures pre + ([op] + jump) + body + [10] == (pre + [op]) + jump + (body + [10])
    ensures ((pre + [op]) + jump) + [] + (body + [10]) == pre + (([op] + jump) + (body + [10]))
  {
  }

  lemma JumpPieces(front: seq<byte>, jump: seq<byte>, right: seq<byte>)
    ensures front + ([7] + jump) + right == (front + [7]) + jump + right
    ensures ((front + [7]) + jump) + [] + right == front + (([7] + jump) + right)
  {
  }

  lemma MinusOneBytes()
    ensures [2] + U32Bytes(-1) == Encode(IChar32(UINT32_MAX))
  {
  }

  lemma PairLayout(wide: bool, p: Pair)
    ensures PairBytes(wide, p) == if wide then U32Bytes(p.0) + U32Bytes(p.1) else U16Bytes(p.0) + U16Bytes(p.1)
  {
  }

  lemma PairsNone(wide: bool, pairs: seq<Pair>)
    ensures PairsBytes(wide, pairs[..0]) == []
  {
  }

  lemma {:induction false} PairsNext(wide: bool, pairs: seq<Pair>, k: nat)
    requires k < |pairs|
    ensures PairsBytes(wide, pairs[..k + 1]) == PairsBytes(wide, pairs[..k]) + PairBytes(wide, pairs[k])
    decreases k
  {
    hide PairBytes;
    var p := pairs[..k + 1];
    if k == 0 {
      assert p[1..] == [];
    } else {
      assert p[1..] == pairs[1..][..k] && pairs[..k][1..] == pairs[1..][..k - 1];
      PairsNext(wide, pairs[1..], k - 1);
    }
  }

  class Compiler {
    const dbuf: DynBuf
    var captureCount: nat
    /** The code emitted so far. */
    ghost var code: seq<byte>

    constructor ()
      ensures Ok() && fresh(dbuf) && fresh(dbuf.buf) && code == [] && captureCount == 1
    {
      dbuf := new DynBuf();
      code, captureCount := [], 1;
    }

    ghost predicate Ok()
      reads this`code, dbuf, dbuf.buf
    {
      dbuf.Valid() && code == dbuf.bytes
    }

    // ----- The buffer -----

    method EmitOp(op: byte)
      requires Ok()
      modifies this`code, dbuf, dbuf.buf
      ensures Ok() && (dbuf.buf == old(dbuf.buf) || fresh(dbuf.buf))
      ensures code == old(code) + [op]
    {
      Append([op]);
    }

    method Append(w: seq<byte>)
      requires Ok()
      modifies this`code, dbuf, dbuf.buf
      ensures Ok() && (dbuf.buf == old(dbuf.buf) || fresh(dbuf.buf))
      ensures code == old(code) + w
    {
      dbuf.Put(w);
      code := dbuf.bytes;
    }

    /** Returns the offset of the operand. */
    method EmitOpU32(op: byte, val: int) returns (pos: nat)
      requires Ok()
      modifies this`code, dbuf, dbuf.buf
      ensures Ok() && (dbuf.buf == old(dbuf.buf) || fresh(dbuf.buf))
      ensures code == old(code) + ([op] + U32Bytes(val)) && pos == |old(code)| + 1
    {
      Append([op]);
      pos := dbuf.size;
      Append(U32Bytes(val));
    }

    method EmitGoto(op: byte, target: int) returns (pos: nat)
      requires Ok()
      modifies this`code, dbuf, dbuf.buf
      ensures Ok() && (dbuf.buf == old(dbuf.buf) || fresh(dbuf.buf))
      ensures code == old(code) + ([op] + U32Bytes(target - (|old(code)| + 5))) && pos == |old(code)| + 1
    {
      Append([op]);
      pos := dbuf.size;
      Append(U32Bytes(target - (pos + 4)));
    }

    method EmitOpU8(op: byte, val: nat)
      requires Ok()
      modifies this`code, dbuf, dbuf.buf
      ensures Ok() && (dbuf.buf == old(dbuf.buf) || fresh(dbuf.buf))
      ensures code == old(code) + ([op] + [val % 256])
    {
      Append([op]);
      Append([val % 256]);
    }

    method EmitOpU16(op: byte, val: int)
      requires Ok()
      modifies this`code, dbuf, dbuf.buf
      ensures Ok() && (dbuf.buf == old(dbuf.buf) || fresh(dbuf.buf))
      ensures code == old(code) + ([op] + U16Bytes(val))
    {
      Append([op]);
      Append(U16Bytes(val));
    }

    /** Makes room in front of code already emitted; what the gap holds is left open. */
    method Insert(pos: nat, len: nat) returns (ghost gap: seq<byte>)
      requires Ok() && pos <= |code|
      modifies this`code, dbuf, dbuf.buf
      ensures Ok() && (dbuf.buf == old(dbuf.buf) || fresh(dbuf.buf))
      ensures |gap| == len && code == old(code)[..pos] + gap + old(code)[pos..]
    {
      gap := dbuf.Insert(pos, len);
      code := dbuf.bytes;
    }

    method Put(pos: nat, w: seq<byte>)
      requires Ok() && pos + |w| <= |code|
      modifies this`code, dbuf, dbuf.buf
      ensures Ok() && (dbuf.buf == old(dbuf.buf) || fresh(dbuf.buf))
      ensures code == old(code)[..pos] + w + old(code)[pos + |w|..]
    {
      dbuf.Write(pos, w);
      code := dbuf.bytes;
    }

    method Size() returns (n: nat)
      requires Ok()
      ensures n == |code|
    {
      return dbuf.size;
    }

    /** The code from an offset on. */
    method From(start: nat) returns (w: seq<byte>)
      requires Ok() && start <= |code|
      ensures w == code[start..]
    {
      return dbuf.buf[start..dbuf.size];
    }

    method Truncate(n: nat)
      requires Ok() && n <= |code|
      modifies this`code, dbuf, dbuf.buf
      ensures Ok() && (dbuf.buf == old(dbuf.buf) || fresh(dbuf.buf))
      ensures code == old(code)[..n]
    {
      dbuf.Truncate(n);
      code := dbuf.bytes;
    }

    /** Appends a copy of code already emitted. */
    method PutSelf(offset: nat, len: nat)
      requires Ok() && offset + len <= |code|
      modifies this`code, dbuf, dbuf.buf
      ensures Ok() && (dbuf.buf == old(dbuf.buf) || fresh(dbuf.buf))
      ensures code == old(code) + old(code)[offset..offset + len]
    {
      dbuf.PutSelf(offset, len);
      code := dbuf.bytes;
    }

    method PutOpU32(pos: nat, op: byte, val: int)
      requires Ok() && pos + 5 <= |code|
      modifies this`code, dbuf, dbuf.buf
      ensures Ok() && (dbuf.buf == old(dbuf.buf) || fresh(dbuf.buf))
      ensures code == old(code)[..pos] + ([op] + U32Bytes(val)) + old(code)[pos + 5..]
    {
      Put(pos, [op]);
      Put(pos + 1, U32Bytes(val));
    }

    /** Writes into the front of a gap. */
    method Fill(pos: nat, w: seq<byte>, ghost pre: seq<byte>, ghost gap: seq<byte>, ghost post: seq<byte>)
      requires Ok() && code == pre + gap + post && pos == |pre| && |w| <= |gap|
      modifies this`code, dbuf, dbuf.buf
      ensures Ok() && (dbuf.buf == old(dbuf.buf) || fresh(dbuf.buf))
      ensures code == (pre + w) + gap[|w|..] + post
    {
      hide Ok;
      Put(pos, w);
      Filled(pre, gap, post, w);
    }

    method FillOp(pos: nat, op: byte, val: int, ghost pre: seq<byte>, ghost gap: seq<byte>, ghost post: seq<byte>)
      requires Ok() && code == pre + gap + post && pos == |pre| && 5 <= |gap|
      modifies this`code, dbuf, dbuf.buf
      ensures Ok() && (dbuf.buf == old(dbuf.buf) || fresh(dbuf.buf))
      ensures code == (pre + ([op] + U32Bytes(val))) + gap[5..] + post
    {
      hide Ok, U32Bytes;
      PutOpU32(pos, op, val);
      Filled(pre, gap, post, [op] + U32Bytes(val));
    }

    // ----- Classes -----

    /** Appends the intervals in the 16-bit form, where 0xffff is infinity, or in the 32-bit form. */
    method EmitPairs(points: seq<int>, wide: bool)
      requires Ok() && |points| % 2 == 0
      modifies this`code, dbuf, dbuf.buf
      ensures Ok() && (dbuf.buf == old(dbuf.buf) || fresh(dbuf.buf))
      ensures code == old(code) + PairsBytes(wide, Pairs(points, wide))
    {
      hide Ok, U16Bytes, U32Bytes, PairsBytes, PairBytes, Pairs;
      ghost var pairs := Pairs(points, wide);
      var i := 0;
      PairsNone(wide, pairs);
      while i < |points|
        invariant 0 <= i <= |points| && i % 2 == 0
        invariant code == old(code) + PairsBytes(wide, pairs[..i / 2])
        invariant Ok() && (dbuf.buf == old(dbuf.buf) || fresh(dbuf.buf))
      {
        PairsNext(wide, pairs, i / 2);
        EmitPair(points, wide, i);
        i := i + 2;
      }
      assert pairs[..i / 2] == pairs;
    }

    method EmitPair(points: seq<int>, wide: bool, i: nat)
      requires Ok() && |points| % 2 == 0 && i % 2 == 0 && i < |points|
      modifies this`code, dbuf, dbuf.buf
      ensures Ok() && (dbuf.buf == old(dbuf.buf) || fresh(dbuf.buf))
      ensures code == old(code) + PairBytes(wide, Pairs(points, wide)[i / 2])
    {
      hide Ok, U16Bytes, U32Bytes, PairBytes;
      PairLayout(wide, Pairs(points, wide)[i / 2]);
      if !wide {
        Append(U16Bytes(points[i]));
        var top := points[i + 1] - 1;
        if top == UINT32_MAX - 1 {
          top := 0xffff;
        }
        Append(U16Bytes(top));
      } else {
        Append(U32Bytes(points[i]));
        Append(U32Bytes(points[i + 1] - 1));
      }
    }

    /** Fails when there are too many intervals. */
    method EmitRange(points: seq<int>) returns (ok: bool)
      requires Ok() && Compressed(points)
      modifies this`code, dbuf, dbuf.buf
      ensures Ok() && (dbuf.buf == old(dbuf.buf) || fresh(dbuf.buf))
      ensures ok <==> |points| / 2 < 65535
      ensures ok ==> code == old(code) + Encode(ClassCode(points))
    {
      hide Ok, U16Bytes, U32Bytes, PairsBytes, Pairs, Compressed;
      EvenPoints(points);
      var len := |points| / 2;
      if len >= 65535 {
        return false;
      }
      ok := true;
      if len == 0 {
        var _ := EmitOpU32(2, -1);
        MinusOneBytes();
        return;
      }
      var high := points[|points| - 1];
      if high == UINT32_MAX {
        high := points[|points| - 2];
      }
      if high <= 0xffff {
        EmitOpU16(21, len);
        EmitPairs(points, false);
      } else {
        EmitOpU16(22, len);
        EmitPairs(points, true);
      }
    }

    // ----- Quantifiers -----

    method QuantifyGreedy(start: nat, count: nat, min: nat, max: nat, ghost a: Code)
      requires Ok() && start <= |code| && code[start..] == Bytes(a) && count == SimpleLength(a)
      modifies this`code, dbuf, dbuf.buf
      ensures Ok() && (dbuf.buf == old(dbuf.buf) || fresh(dbuf.buf))
      ensures code == old(code)[..start] + Bytes(GreedyCode(a, min, max))
    {
      hide Ok, Bytes, Len, SimpleLength, GreedyCode, U32Bytes;
      ghost var pre, body := code[..start], code[start..];
      GreedyBytes(a, min, max);
      EmitOp(10);
      assert code[start..] == body + [10] && code[..start] == pre;
      var gap := Insert(start, 17);
      var size := Size();
      FillOp(start, 28, size - start - 17, pre, gap, body + [10]);
      PutCounts(start + 5, min, max, count, pre + ([28] + U32Bytes(|body| + 1)), gap[5..], body + [10]);
    }

    method PutCounts(at: nat, min: nat, max: nat, count: nat, ghost pre: seq<byte>, ghost gap: seq<byte>, ghost post: seq<byte>)
      requires Ok() && code == pre + gap + post && at == |pre| && |gap| == 12
      modifies this`code, dbuf, dbuf.buf
      ensures Ok() && (dbuf.buf == old(dbuf.buf) || fresh(dbuf.buf))
      ensures code == pre + (U32Bytes(min) + U32Bytes(max) + U32Bytes(count) + post)
    {
      hide Ok, U32Bytes;
      ghost var a, b, c := U32Bytes(min), U32Bytes(max), U32Bytes(count);
      Fill(at, U32Bytes(min), pre, gap, post);
      Fill(at + 4, U32Bytes(max), pre + a, gap[4..], post);
      Fill(at + 8, U32Bytes(count), pre + a + b, gap[4..][4..], post);
      Four(pre, a, b, c, post);
    }

    /** The iterations when none is mandatory, behind the instruction that resets groups. */
    method QuantifyZero(start0: nat, lastCount: nat, max: nat, greedy: bool, check: bool, ghost a: Code)
      requires Ok() && start0 <= |code| && code[start0..] == Bytes(a) && lastCount <= captureCount
      modifies this`code, dbuf, dbuf.buf
      ensures Ok() && (dbuf.buf == old(dbuf.buf) || fresh(dbuf.buf))
      ensures code == old(code)[..start0] + Bytes(ResetCode(captureCount - lastCount, lastCount) + TailFromZero(a, max, greedy, check))
    {
      hide Ok, Bytes, Len, ResetCode, TailFromZero;
      ghost var pre, groups := code[..start0], captureCount - lastCount;
      BytesConcat(ResetCode(groups, lastCount), TailFromZero(a, max, greedy, check));
      var start := InsertReset(start0, lastCount);
      assert code[start..] == Bytes(a) && code[..start] == pre + Bytes(ResetCode(groups, lastCount));
      QuantifyTail(start, max, greedy, check, a);
    }

    /** Inserts the instruction that resets the groups of the atom, if it has any. */
    method InsertReset(start0: nat, lastCount: nat) returns (start: nat)
      requires Ok() && start0 <= |code| && lastCount <= captureCount
      modifies this`code, dbuf, dbuf.buf
      ensures Ok() && (dbuf.buf == old(dbuf.buf) || fresh(dbuf.buf))
      ensures code == old(code)[..start0] + Bytes(ResetCode(captureCount - lastCount, lastCount)) + old(code)[start0..]
      ensures start == start0 + |Bytes(ResetCode(captureCount - lastCount, lastCount))|
    {
      hide Ok, Bytes, Len;
      start := start0;
      ghost var pre, body := code[..start], code[start..];
      if lastCount != captureCount {
        var gap := Insert(start, 3);
        Fill(start, [13], pre, gap, body);
        start := start + 1;
        Fill(start, [lastCount % 256], pre + [13], gap[1..], body);
        start := start + 1;
        Fill(start, [(captureCount - 1) % 256], pre + [13] + [lastCount % 256], gap[1..][1..], body);
        start := start + 1;
        ResetBytes(lastCount, captureCount - 1);
        Four(pre, [13], [lastCount % 256], [(captureCount - 1) % 256], body);
      } else {
        NoBytes();
      }
    }

    method QuantifyTail(start: nat, max: nat, greedy: bool, check: bool, ghost a: Code)
      requires Ok() && start <= |code| && code[start..] == Bytes(a)
      modifies this`code, dbuf, dbuf.buf
      ensures Ok() && (dbuf.buf == old(dbuf.buf) || fresh(dbuf.buf))
      ensures code == old(code)[..start] + Bytes(TailFromZero(a, max, greedy, check))
    {
      hide Ok, Bytes, Len, U32Bytes, InfiniteLoop, CountedLoop;
      ghost var pre, body := code[..start], code[start..];
      var size := Size();
      var len := size - start;
      if max == 0 {
        Truncate(start);
        NoBytes();
      } else if max == 1 {
        OptionalBytes(a, greedy);
        var _ := Insert(start, 5);
        PutOpU32(start, SplitOp(greedy), len);
        assert code == pre + (([SplitOp(greedy)] + U32Bytes(len)) + body);
      } else if max == INFINITE {
        LoopInPlace(start, greedy, check, a);
      } else {
        CountInPlace(start, max, greedy, a);
      }
    }

    method LoopInPlace(start: nat, greedy: bool, check: bool, ghost a: Code)
      requires Ok() && start <= |code| && code[start..] == Bytes(a)
      modifies this`code, dbuf, dbuf.buf
      ensures Ok() && (dbuf.buf == old(dbuf.buf) || fresh(dbuf.buf))
      ensures code == old(code)[..start] + Bytes(InfiniteLoop(a, check, greedy))
    {
      hide Ok, Bytes, Len, U32Bytes, InfiniteLoop;
      ghost var pre, body := code[..start], code[start..];
      var size := Size();
      var len := size - start;
      InfiniteBytes(a, check, greedy);
      var extra := if check then 1 else 0;
      var gap := Insert(start, 5 + extra);
      ghost var split := [SplitOp(greedy)] + U32Bytes(len + 5 + extra);
      FillOp(start, SplitOp(greedy), len + 5 + extra, pre, gap, body);
      if check {
        Fill(start + 5, [25], pre + split, gap[5..], body);
        var _ := EmitGoto(26, start);
        Five(pre, split, [25], body, [26] + U32Bytes(Back(len + 6)));
      } else {
        assert gap[5..] == [];
        var _ := EmitGoto(7, start);
        Five(pre, split, [], body, [7] + U32Bytes(Back(len + 5)));
      }
    }

    method CountInPlace(start: nat, n: nat, greedy: bool, ghost a: Code)
      requires Ok() && start <= |code| && code[start..] == Bytes(a)
      modifies this`code, dbuf, dbuf.buf
      ensures Ok() && (dbuf.buf == old(dbuf.buf) || fresh(dbuf.buf))
      ensures code == old(code)[..start] + Bytes(CountedLoop(a, n, greedy))
    {
      hide Ok, Bytes, Len, U32Bytes, CountedLoop;
      ghost var pre, body := code[..start], code[start..];
      var size := Size();
      var len := size - start;
      CountedBytes(a, n, greedy);
      var gap := Insert(start, 10);
      ghost var push, split := [15] + U32Bytes(n), [SplitOp(greedy)] + U32Bytes(len + 5);
      FillOp(start, 15, n, pre, gap, body);
      FillOp(start + 5, SplitOp(greedy), len + 5, pre + push, gap[5..], body);
      var _ := EmitGoto(14, start + 5);
      EmitOp(16);
      Six(pre, push, split, body, [14] + U32Bytes(Back(len + 5)), [16]);
    }

    /** Mandatory iterations; returns where the atom is afterwards. */
    method QuantifyMin(start0: nat, min: nat, ghost a: Code) returns (start: nat)
      requires Ok() && start0 <= |code| && code[start0..] == Bytes(a) && min > 0
      modifies this`code, dbuf, dbuf.buf
      ensures Ok() && (dbuf.buf == old(dbuf.buf) || fresh(dbuf.buf))
      ensures code == old(code)[..start0] + Bytes(MinCode(a, min))
      ensures start + Len(a) <= |code| && code[start..start + Len(a)] == Bytes(a)
    {
      hide Ok, Bytes, Len, U32Bytes;
      start := start0;
      if min == 1 {
      } else {
        FixedBytes(a, min);
        var _ := Insert(start, 5);
        PutOpU32(start, 15, min);
        start := start + 5;
        var _ := EmitGoto(14, start);
        EmitOp(16);
      }
    }

    /** Optional iterations after mandatory ones, over a copy of the atom at `start`. */
    method QuantifyMore(start: nat, len: nat, min: nat, max: nat, greedy: bool, check: bool, ghost a: Code)
      requires Ok() && start + len <= |code| && code[start..start + len] == Bytes(a)
      modifies this`code, dbuf, dbuf.buf
      ensures Ok() && (dbuf.buf == old(dbuf.buf) || fresh(dbuf.buf))
      ensures code == old(code) + Bytes(TailFromMin(a, min, max, greedy, check))
    {
      hide Ok, Bytes, Len, InfiniteLoop, CountedLoop;
      NoBytes();
      if max == INFINITE {
        AppendLoop(start, len, greedy, check, a);
      } else if max > min {
        AppendCount(start, len, max - min, greedy, a);
      }
    }

    method AppendLoop(start: nat, len: nat, greedy: bool, check: bool, ghost a: Code)
      requires Ok() && start + len <= |code| && code[start..start + len] == Bytes(a)
      modifies this`code, dbuf, dbuf.buf
      ensures Ok() && (dbuf.buf == old(dbuf.buf) || fresh(dbuf.buf))
      ensures code == old(code) + Bytes(InfiniteLoop(a, check, greedy))
    {
      hide Ok, Bytes, Len, U32Bytes, InfiniteLoop;
      ghost var pre, body := code, Bytes(a);
      InfiniteBytes(a, check, greedy);
      var pos := Size();
      var extra := if check then 1 else 0;
      var _ := EmitOpU32(SplitOp(greedy), len + 5 + extra);
      ghost var split := [SplitOp(greedy)] + U32Bytes(len + 5 + extra);
      if check {
        EmitOp(25);
        assert code[start..start + len] == body;
        PutSelf(start, len);
        var _ := EmitGoto(26, pos);
        Five(pre, split, [25], body, [26] + U32Bytes(Back(len + 6)));
      } else {
        assert code[start..start + len] == body;
        PutSelf(start, len);
        var _ := EmitGoto(7, pos);
        Five(pre, split, [], body, [7] + U32Bytes(Back(len + 5)));
      }
    }

    method AppendCount(start: nat, len: nat, n: nat, greedy: bool, ghost a: Code)
      requires Ok() && start + len <= |code| && code[start..start + len] == Bytes(a)
      modifies this`code, dbuf, dbuf.buf
      ensures Ok() && (dbuf.buf == old(dbuf.buf) || fresh(dbuf.buf))
      ensures code == old(code) + Bytes(CountedLoop(a, n, greedy))
    {
      hide Ok, Bytes, Len, U32Bytes, CountedLoop;
      ghost var pre, body := code, Bytes(a);
      CountedBytes(a, n, greedy);
      var _ := EmitOpU32(15, n);
      ghost var push := [15] + U32Bytes(n);
      var pos := Size();
      var _ := EmitOpU32(SplitOp(greedy), len + 5);
      ghost var split := [SplitOp(greedy)] + U32Bytes(len + 5);
      assert code[start..start + len] == body;
      PutSelf(start, len);
      var _ := EmitGoto(14, pos);
      EmitOp(16);
      Six(pre, push, split, body, [14] + U32Bytes(Back(len + 5)), [16]);
    }

    /** The split and loop encodings. */
    method QuantifyPlain(start: nat, lastCount: nat, min: nat, max: nat, greedy: bool, check: bool, ghost a: Code)
      requires Ok() && start <= |code| && code[start..] == Bytes(a) && lastCount <= captureCount
      modifies this`code, dbuf, dbuf.buf
      ensures Ok() && (dbuf.buf == old(dbuf.buf) || fresh(dbuf.buf))
      ensures code == old(code)[..start] + Bytes(PlainQuant(a, lastCount, captureCount - lastCount, min, max, greedy, check))
    {
      hide Ok, Bytes, Len, ResetCode, TailFromZero, TailFromMin, MinCode, U32Bytes;
      var size := Size();
      var len := size - start;
      if min == 0 {
        QuantifyZero(start, lastCount, max, greedy, check, a);
      } else if min == 1 && max == INFINITE && !check {
        PlusBytes(a, greedy);
        var _ := EmitGoto(SplitOp(!greedy), start);
      } else {
        BytesConcat(MinCode(a, min), TailFromMin(a, min, max, greedy, check));
        var atom := QuantifyMin(start, min, a);
        QuantifyMore(atom, len, min, max, greedy, check, a);
      }
    }

    /** Rewrites the code of the atom at `start` into that of the quantified atom. */
    method Quantify(start: nat, lastCount: nat, min: nat, max: nat, greedy: bool, ghost a: Code)
      requires Ok() && start <= |code| && code[start..] == Bytes(a) && CountsFit(a) && lastCount <= captureCount
      modifies this`code, dbuf, dbuf.buf
      ensures Ok() && (dbuf.buf == old(dbuf.buf) || fresh(dbuf.buf))
      ensures code == old(code)[..start] + Bytes(QuantCode(a, lastCount, captureCount - lastCount, min, max, greedy))
    {
      hide Ok, Bytes, Len, CountsFit, SimpleLength, GreedyCode, PlainQuant, CheckAdvance;
      var check := false;
      if greedy {
        var emitted := From(start);
        if max > 0 {
          var count := SimpleQuantifierScan(emitted, a);
          if count > 0 {
            QuantifyGreedy(start, count, min, max, a);
            return;
          }
        }
        var advance := CheckAdvanceScan(emitted, a);
        check := advance == 0;
      }
      QuantifyPlain(start, lastCount, min, max, greedy, check, a);
    }

    // ----- Patterns -----

    /** A character, a class or an assertion is one instruction. */
    method Unit(r: Re) returns (ok: bool)
      requires Ok() && WellFormed(r) && IsUnit(r)
      modifies this`code, dbuf, dbuf.buf
      ensures Ok() && (dbuf.buf == old(dbuf.buf) || fresh(dbuf.buf))
      ensures Groups(r) == 0 && (ok <==> SmallClasses(r))
      ensures ok ==> code == old(code) + Bytes(Gen(r, captureCount))
    {
      hide Ok, Bytes, Len, Gen, U32Bytes;
      GenUnfold(r, captureCount);
      ok := true;
      match r
      case Empty => NoBytes();
      case Char(c) =>
        if c <= 0xffff { EmitOpU16(1, c); } else { var _ := EmitOpU32(2, c); }
        CharBytes(c);
      case Dot => EmitOp(3); FlatBytes();
      case Class(points) =>
        BytesUnit(ClassCode(points));
        ok := EmitRange(points);
      case LineStart => EmitOp(5); FlatBytes();
      case LineEnd => EmitOp(6); FlatBytes();
      case WordBoundary(negated) => EmitOp(if negated then 18 else 17); FlatBytes();
    }

    /** Fails when a class has too many intervals or there are too many groups. */
    method Term(r: Re) returns (ok: bool)
      requires Ok() && WellFormed(r) && captureCount <= 255
      modifies this, dbuf, dbuf.buf
      ensures Ok() && (dbuf.buf == old(dbuf.buf) || fresh(dbuf.buf))
      ensures ok <==> SmallClasses(r) && old(captureCount) + Groups(r) <= 255
      ensures ok ==> captureCount == old(captureCount) + Groups(r)
      ensures ok ==> code == old(code) + Bytes(Gen(r, old(captureCount)))
      decreases r, 0
    {
      hide Ok, Bytes, Len, QuantCode, AltCode, GroupCode, LookCode, Gen, U32Bytes, CountsFit;
      if IsUnit(r) {
        ok := Unit(r);
        return;
      }
      GenUnfold(r, captureCount);
      var start := Size();
      var cc := captureCount;
      match r
      case Cat(a, b) =>
        BytesConcat(Gen(a, cc), Gen(b, cc + Groups(a)));
        ok := Term(a);
        if ok { ok := Term(b); }
      case Alt(a, b) =>
        ok := Term(a);
        if ok { ok := Alternative(start, b, Gen(a, cc)); }
      case Group(b) => ok := Capture(b);
      case Look(negated, b) => ok := Lookahead(negated, b);
      case Quant(b, min, max, greedy) =>
        ok := Term(b);
        if ok {
          CountsGen(b, cc);
          Quantify(start, cc, min, max, greedy, Gen(b, cc));
        }
    }

    method Capture(b: Re) returns (ok: bool)
      requires Ok() && WellFormed(b) && captureCount <= 255
      modifies this, dbuf, dbuf.buf
      ensures Ok() && (dbuf.buf == old(dbuf.buf) || fresh(dbuf.buf))
      ensures ok <==> SmallClasses(b) && old(captureCount) + 1 + Groups(b) <= 255
      ensures ok ==> captureCount == old(captureCount) + 1 + Groups(b)
      ensures ok ==> code == old(code) + Bytes(GroupCode(old(captureCount), Gen(b, old(captureCount) + 1)))
      decreases b, 1
    {
      hide Ok, Bytes, Len, Gen, GroupCode;
      if captureCount >= 255 {
        return false;
      }
      GroupBytes(captureCount, Gen(b, captureCount + 1));
      var index := captureCount;
      captureCount := captureCount + 1;
      EmitOpU8(11, index);
      ok := Term(b);
      if ok {
        EmitOpU8(12, index);
      }
    }

    /** The jump behind the body is stored as 0 and patched once the body is there. */
    method Lookahead(negated: bool, b: Re) returns (ok: bool)
      requires Ok() && WellFormed(b) && captureCount <= 255
      modifies this, dbuf, dbuf.buf
      ensures Ok() && (dbuf.buf == old(dbuf.buf) || fresh(dbuf.buf))
      ensures ok <==> SmallClasses(b) && old(captureCount) + Groups(b) <= 255
      ensures ok ==> captureCount == old(captureCount) + Groups(b)
      ensures ok ==> code == old(code) + Bytes(LookCode(negated, Gen(b, old(captureCount))))
      decreases b, 1
    {
      hide Ok, Bytes, Len, Gen, U32Bytes, LookCode;
      ghost var pre := code;
      ghost var body := Bytes(Gen(b, captureCount));
      LookBytes(negated, Gen(b, captureCount));
      var op := if negated then 24 else 23;
      var pos := EmitOpU32(op, 0);
      ok := Term(b);
      if ok {
        EmitOp(10);
        LookPieces(pre, op, U32Bytes(0), body);
        var size := Size();
        Fill(pos, U32Bytes(size - (pos + 4)), pre + [op], U32Bytes(0), body + [10]);
        LookPieces(pre, op, U32Bytes(|body| + 1), body);
      }
    }

    method InsertSplit(start: nat, len: nat)
      requires Ok() && start <= |code|
      modifies this`code, dbuf, dbuf.buf
      ensures Ok() && (dbuf.buf == old(dbuf.buf) || fresh(dbuf.buf))
      ensures code == old(code)[..start] + ([9] + U32Bytes(len + 5)) + old(code)[start..]
    {
      hide Ok, U32Bytes;
      ghost var pre, left := code[..start], code[start..];
      var gap := Insert(start, 5);
      FillOp(start, 9, len + 5, pre, gap, left);
      assert gap[5..] == [];
    }

    /** Inserts a split before the first alternative and appends the second one. */
    method Alternative(start: nat, b: Re, ghost a: Code) returns (ok: bool)
      requires Ok() && WellFormed(b) && captureCount <= 255 && start <= |code| && code[start..] == Bytes(a)
      modifies this, dbuf, dbuf.buf
      ensures Ok() && (dbuf.buf == old(dbuf.buf) || fresh(dbuf.buf))
      ensures ok <==> SmallClasses(b) && old(captureCount) + Groups(b) <= 255
      ensures ok ==> captureCount == old(captureCount) + Groups(b)
      ensures ok ==> code == old(code)[..start] + Bytes(AltCode(a, Gen(b, old(captureCount))))
      decreases b, 1
    {
      hide Ok, Bytes, Len, Gen, U32Bytes, AltCode;
      ghost var pre, left := code[..start], code[start..];
      ghost var right := Bytes(Gen(b, captureCount));
      AltBytes(a, Gen(b, captureCount));
      var size := Size();
      var len := size - start;
      ghost var split := [9] + U32Bytes(len + 5);
      InsertSplit(start, len);
      ghost var front := code;
      var pos := EmitOpU32(7, 0);
      ok := Term(b);
      if ok {
        JumpPieces(front, U32Bytes(0), right);
        var size := Size();
        Fill(pos, U32Bytes(size - (pos + 4)), front + [7], U32Bytes(0), right);
        assert U32Bytes(0)[4..] == [];
        JumpPieces(front, U32Bytes(|right|), right);
        Five(pre, split, [], left, ([7] + U32Bytes(|right|)) + right);
      }
    }
  }
}
