/** Every operand the compiler emits fits its field, so the bytes of a program are
    fetched back as its instructions. */
module RegexEncode {
  import opened Basics
  import opened Intervals
  import opened RegexSyntax
  import opened RegexClass
  import opened RegexCode
  import opened RegexGen
  import opened RegexVM
  import opened RegexQuant
  import opened RegexGreedy

  lemma EncodableConcat(f: Code, g: Code)
    ensures AllEncodable(f + g) <==> AllEncodable(f) && AllEncodable(g)
  {
    if AllEncodable(f + g) {
      assert forall k :: 0 <= k < |f| ==> f[k] == (f + g)[k];
      assert forall k :: 0 <= k < |g| ==> g[k] == (f + g)[|f| + k];
    }
  }

  lemma EncodableUnit(i: Instr)
    requires Encodable(i)
    ensures AllEncodable([i])
  {
  }

  lemma EncodableHead(i: Instr, f: Code)
    requires Encodable(i) && AllEncodable(f)
    ensures AllEncodable([i] + f)
  {
  }

  lemma LoopEndEncodable(a: Code, off: int)
    requires AllEncodable(a) && Offset(off)
    ensures AllEncodable(LoopEnd(a, off))
  {
    hide Encodable;
    EncodableParts(off);
    EncodableHead(ILoop(off), [IDrop]);
    EncodableConcat(a, [ILoop(off)] + [IDrop]);
  }

  lemma EncodableParts(off: int)
    requires Offset(off)
    ensures Encodable(ILoop(off)) && AllEncodable([IDrop]) && AllEncodable([IBnePos(off)]) && AllEncodable([IGoto(off)])
    ensures forall b :: AllEncodable([ISplit(b, off)])
  {
  }

  lemma InfiniteEncodable(a: Code, check: bool, greedy: bool)
    requires AllEncodable(a) && Len(InfiniteLoop(a, check, greedy)) < TWO31
    ensures AllEncodable(InfiniteLoop(a, check, greedy))
  {
    var n := Len(a);
    if check {
      CheckedLayout(_ => None, 0, a, greedy);
      var tail := [IBnePos(Back(n + 6))];
      EncodableConcat(a, tail);
      EncodableHead(IPushPos, a + tail);
      EncodableHead(ISplit(greedy, n + 6), [IPushPos] + (a + tail));
    } else {
      UncheckedLayout(_ => None, 0, a, greedy);
      var tail := [IGoto(Back(n + 5))];
      EncodableConcat(a, tail);
      EncodableHead(ISplit(greedy, n + 5), a + tail);
    }
  }

  lemma CountedEncodable(a: Code, n: nat, greedy: bool)
    requires AllEncodable(a) && Word(n) && Len(CountedLoop(a, n, greedy)) < TWO31
    ensures AllEncodable(CountedLoop(a, n, greedy))
  {
    CountedLayout(_ => None, 0, a, n, greedy);
    var rest := LoopEnd(a, Back(Len(a) + 5));
    LoopEndEncodable(a, Back(Len(a) + 5));
    EncodableHead(ISplit(greedy, Len(a) + 5), rest);
    EncodableHead(IPush(n), [ISplit(greedy, Len(a) + 5)] + rest);
  }

  lemma MinEncodable(a: Code, min: nat)
    requires AllEncodable(a) && Word(min) && Len(MinCode(a, min)) < TWO31
    ensures AllEncodable(MinCode(a, min))
  {
    if min != 1 {
      FixedLayout(_ => None, 0, a, min);
      LoopEndEncodable(a, Back(Len(a)));
      EncodableHead(IPush(min), LoopEnd(a, Back(Len(a))));
    }
  }

  lemma ZeroEncodable(a: Code, cc: nat, groups: nat, max: nat, greedy: bool, check: bool)
    requires AllEncodable(a) && max <= INFINITE && cc + groups <= 255
    requires Len(ResetCode(groups, cc) + TailFromZero(a, max, greedy, check)) < TWO31
    ensures AllEncodable(ResetCode(groups, cc) + TailFromZero(a, max, greedy, check))
  {
    hide Encodable, InfiniteLoop, CountedLoop, OptionalCode, Len, ResetCode;
    var reset, tail := ResetCode(groups, cc), TailFromZero(a, max, greedy, check);
    BytesConcat(reset, tail);
    EncodableConcat(reset, tail);
    ResetEncodable(groups, cc);
    if max == 1 {
      OptionalEncodable(a, greedy);
    } else if max == INFINITE {
      InfiniteEncodable(a, check, greedy);
    } else if max > 0 {
      CountedEncodable(a, max, greedy);
    }
  }

  lemma MoreEncodable(a: Code, min: nat, max: nat, greedy: bool, check: bool)
    requires AllEncodable(a) && 0 < min <= max <= INFINITE
    requires Len(MinCode(a, min) + TailFromMin(a, min, max, greedy, check)) < TWO31
    ensures AllEncodable(MinCode(a, min) + TailFromMin(a, min, max, greedy, check))
  {
    hide Encodable, InfiniteLoop, CountedLoop, MinCode, Len;
    var tail := TailFromMin(a, min, max, greedy, check);
    BytesConcat(MinCode(a, min), tail);
    EncodableConcat(MinCode(a, min), tail);
    MinEncodable(a, min);
    if max == INFINITE {
      InfiniteEncodable(a, check, greedy);
    } else if max > min {
      CountedEncodable(a, max - min, greedy);
    }
  }

  lemma PlainEncodable(a: Code, cc: nat, groups: nat, min: nat, max: nat, greedy: bool, check: bool)
    requires AllEncodable(a) && min <= max <= INFINITE && cc + groups <= 255
    requires Len(PlainQuant(a, cc, groups, min, max, greedy, check)) < TWO31
    ensures AllEncodable(PlainQuant(a, cc, groups, min, max, greedy, check))
  {
    hide Encodable, InfiniteLoop, CountedLoop, MinCode, OptionalCode, Len, TailFromMin, TailFromZero;
    if min == 0 {
      ZeroEncodable(a, cc, groups, max, greedy, check);
    } else if min == 1 && max == INFINITE && !check {
      PlusLayout(_ => None, 0, a, greedy);
      EncodableParts(Back(Len(a)));
      EncodableConcat(a, [ISplit(!greedy, Back(Len(a)))]);
    } else {
      MoreEncodable(a, min, max, greedy, check);
    }
  }

  lemma OptionalEncodable(a: Code, greedy: bool)
    requires AllEncodable(a) && Len(OptionalCode(a, greedy)) < TWO31
    ensures AllEncodable(OptionalCode(a, greedy))
  {
    CodeAtHead(_ => None, 0, ISplit(greedy, Len(a)), a);
    EncodableHead(ISplit(greedy, Len(a)), a);
  }

  lemma ResetEncodable(groups: nat, cc: nat)
    requires cc + groups <= 255
    ensures AllEncodable(ResetCode(groups, cc))
  {
  }

  lemma {:induction false} SimpleLengthBound(f: Code)
    ensures SimpleLength(f) <= Len(f)
    decreases |f|
  {
    if f != [] { SimpleLengthBound(f[1..]); }
  }

  lemma GreedyEncodable(a: Code, min: nat, max: nat)
    requires AllEncodable(a) && SimpleLength(a) >= 0 && min <= max <= INFINITE
    requires Len(GreedyCode(a, min, max)) < TWO31
    ensures AllEncodable(GreedyCode(a, min, max))
  {
    GreedyLayout(_ => None, 0, a, min, max);
    SimpleLengthBound(a);
    EncodableUnit(IMatch);
    EncodableConcat(a, [IMatch]);
    EncodableHead(IGreedy(Len(a) + 1, min, max, SimpleLength(a)), a + [IMatch]);
  }

  /** The code of a body is no longer than the code of its quantifier, unless that
      drops it. */
  lemma QuantLength(a: Code, cc: nat, groups: nat, min: nat, max: nat, greedy: bool)
    requires min <= max
    ensures max > 0 ==> Len(a) <= Len(QuantCode(a, cc, groups, min, max, greedy))
  {
    hide InfiniteLoop, CountedLoop, FixedLoop, PlusLoop, Len;
    var check := NeedsCheck(a, greedy);
    CheckedLayout(_ => None, 0, a, greedy);
    UncheckedLayout(_ => None, 0, a, greedy);
    CountedLayout(_ => None, 0, a, max, greedy);
    FixedLayout(_ => None, 0, a, min);
    PlusLayout(_ => None, 0, a, greedy);
    CodeAtHead(_ => None, 0, ISplit(greedy, Len(a)), a);
    if UsesGreedy(a, max, greedy) {
      GreedyLayout(_ => None, 0, a, min, max);
    } else if min == 0 {
      BytesConcat(ResetCode(groups, cc), TailFromZero(a, max, greedy, check));
    } else {
      BytesConcat(MinCode(a, min), TailFromMin(a, min, max, greedy, check));
    }
  }

  lemma QuantEncodable(a: Code, cc: nat, groups: nat, min: nat, max: nat, greedy: bool)
    requires AllEncodable(a) && min <= max <= INFINITE && cc + groups <= 255
    requires Len(QuantCode(a, cc, groups, min, max, greedy)) < TWO31
    ensures AllEncodable(QuantCode(a, cc, groups, min, max, greedy))
  {
    hide Encodable, Len, GreedyCode, PlainQuant;
    if UsesGreedy(a, max, greedy) {
      GreedyEncodable(a, min, max);
    } else {
      PlainEncodable(a, cc, groups, min, max, greedy, NeedsCheck(a, greedy));
    }
  }

  lemma ClassEncodable(points: seq<int>)
    requires Compressed(points) && |points| / 2 < 65535
    ensures Encodable(ClassCode(points))
  {
    if |points| >= 2 {
      var wide := TopPoint(points) > 0xffff;
      var pairs, n := Pairs(points, wide), |points|;
      forall k | 0 <= k < |pairs| ensures PairFits(wide, pairs[k]) {
        assert 0 <= points[2 * k] < points[2 * k + 1] <= points[n - 1];
        assert 2 * k < n - 2 ==> points[2 * k + 1] < points[n - 2];
      }
    }
  }

  /** Everything the compiler emits for a program shorter than 2 GB can be decoded. */
  lemma {:induction false} GenEncodable(r: Re, cc: nat)
    requires WellFormed(r) && SmallClasses(r) && cc + Groups(r) <= 255 && Len(Gen(r, cc)) < TWO31
    ensures AllEncodable(Gen(r, cc))
    decreases r
  {
    hide Encodable, Len, QuantCode, AltCode, GroupCode, LookCode, ClassCode, ResetCode, AllEncodable, Gen;
    GenUnfold(r, cc);
    match r
    case Empty => NothingEncodable();
    case Char(c) => CharEncodable(c);
    case Class(points) =>
      ClassEncodable(points);
      EncodableUnit(ClassCode(points));
    case Cat(a, b) =>
      BytesConcat(Gen(a, cc), Gen(b, cc + Groups(a)));
      GenEncodable(a, cc);
      GenEncodable(b, cc + Groups(a));
      EncodableConcat(Gen(a, cc), Gen(b, cc + Groups(a)));
    case Alt(a, b) =>
      AltLength(Gen(a, cc), Gen(b, cc + Groups(a)));
      GenEncodable(a, cc);
      GenEncodable(b, cc + Groups(a));
      AltEncodable(Gen(a, cc), Gen(b, cc + Groups(a)));
    case Group(b) =>
      GroupLength(cc, Gen(b, cc + 1));
      GenEncodable(b, cc + 1);
      GroupEncodable(cc, Gen(b, cc + 1));
    case Look(negated, b) =>
      LookLength(negated, Gen(b, cc));
      GenEncodable(b, cc);
      LookEncodable(negated, Gen(b, cc));
    case Quant(b, min, max, greedy) =>
      QuantLength(Gen(b, cc), cc, Groups(b), min, max, greedy);
      if max > 0 {
        GenEncodable(b, cc);
        QuantEncodable(Gen(b, cc), cc, Groups(b), min, max, greedy);
      } else {
        DroppedCode(Gen(b, cc), cc, Groups(b), greedy);
        ResetEncodable(Groups(b), cc);
      }
    case _ => UnitEncodable(Gen(r, cc)[0]);
  }

  lemma DroppedCode(a: Code, cc: nat, groups: nat, greedy: bool)
    ensures QuantCode(a, cc, groups, 0, 0, greedy) == ResetCode(groups, cc)
  {
  }

  lemma CharEncodable(c: int)
    requires 0 <= c < 0x4000_0000
    ensures AllEncodable(if c <= 0xffff then [IChar(c)] else [IChar32(c)])
  {
  }

  lemma NothingEncodable()
    ensures AllEncodable([])
  {
  }

  lemma UnitEncodable(i: Instr)
    requires i.IDot? || i.ILineStart? || i.ILineEnd? || i.IWord?
    ensures AllEncodable([i])
  {
  }

  lemma AltLength(a: Code, b: Code)
    ensures Len(AltCode(a, b)) == Len(a) + Len(b) + 10
  {
    CodeAtHead(_ => None, 0, ISplit(true, Len(a) + 5), a + ([IGoto(Len(b))] + b));
    BytesConcat(a, [IGoto(Len(b))] + b);
    CodeAtHead(_ => None, 0, IGoto(Len(b)), b);
  }

  lemma AltEncodable(a: Code, b: Code)
    requires AllEncodable(a) && AllEncodable(b) && Len(a) + Len(b) + 10 < TWO31
    ensures AllEncodable(AltCode(a, b))
  {
    var rest := [IGoto(Len(b))] + b;
    EncodableHead(IGoto(Len(b)), b);
    EncodableConcat(a, rest);
    EncodableHead(ISplit(true, Len(a) + 5), a + rest);
  }

  lemma GroupLength(cc: nat, a: Code)
    ensures Len(GroupCode(cc, a)) == Len(a) + 4
  {
    CodeAtHead(_ => None, 0, ISave(false, cc), a + [ISave(true, cc)]);
    UnitLayout(_ => None, 0, a, ISave(true, cc));
  }

  lemma GroupEncodable(cc: nat, a: Code)
    requires AllEncodable(a) && cc < 256
    ensures AllEncodable(GroupCode(cc, a))
  {
    EncodableConcat(a, [ISave(true, cc)]);
    EncodableHead(ISave(false, cc), a + [ISave(true, cc)]);
  }

  lemma LookLength(negated: bool, a: Code)
    ensures Len(LookCode(negated, a)) == Len(a) + 6
  {
    CodeAtHead(_ => None, 0, ILook(negated, Len(a) + 1), a + [IMatch]);
    UnitLayout(_ => None, 0, a, IMatch);
  }

  lemma LookEncodable(negated: bool, a: Code)
    requires AllEncodable(a) && Len(a) + 6 < TWO31
    ensures AllEncodable(LookCode(negated, a))
  {
    EncodableConcat(a, [IMatch]);
    EncodableHead(ILook(negated, Len(a) + 1), a + [IMatch]);
  }

  // ----- The program as bytes -----

  /** A pattern the compiler accepts and whose program the `int` positions of the
      compiler can address. */
  ghost predicate Compilable(r: Re) {
    WellFormed(r) && SmallClasses(r) && Groups(r) < 255 && Len(Program(r)) < TWO31
  }

  function MachineFor(code: seq<byte>, s: seq<byte>): Machine {
    Machine(Fetcher(code), |code|, s, |s| + 1, None)
  }

  lemma ProgramLength(r: Re)
    ensures Len(Program(r)) == Len(Gen(r, 1)) + 16
  {
    hide Len, Gen, CodeAt, GroupCode, SearchLoop;
    GroupLength(0, Gen(r, 1));
    BytesConcat(SearchLoop(), GroupCode(0, Gen(r, 1)) + [IMatch]);
    UnitLayout(_ => None, 0, GroupCode(0, Gen(r, 1)), IMatch);
    SearchLoopLayout(_ => None);
  }

  lemma ProgramEncodable(r: Re)
    requires Compilable(r)
    ensures AllEncodable(Program(r))
  {
    hide Encodable, Len, Gen;
    ProgramLength(r);
    GenEncodable(r, 1);
    GroupEncodable(0, Gen(r, 1));
    SearchEncodable();
    EncodableConcat(GroupCode(0, Gen(r, 1)), [IMatch]);
    EncodableConcat(SearchLoop(), GroupCode(0, Gen(r, 1)) + [IMatch]);
  }

  lemma SearchEncodable()
    ensures AllEncodable(SearchLoop()) && AllEncodable([IMatch])
  {
  }

  /** The bytes of a program are fetched as its instructions, and no others. */
  lemma ProgramFetched(r: Re, code: seq<byte>, s: seq<byte>)
    requires Compilable(r) && code == Bytes(Program(r))
    ensures CodeAt(MachineFor(code, s).fetch, 0, Program(r)) && Sized(MachineFor(code, s))
  {
    hide Program, Decode, Bytes;
    ProgramEncodable(r);
    FetcherReads(code);
    StoredWhole(code);
    BytesAreCode(Fetcher(code), code, 0, Program(r));
    FetchBelow(code);
  }

  lemma StoredWhole(code: seq<byte>)
    ensures Stored(code, 0, code)
  {
    assert code[0..|code|] == code;
  }

  lemma FetchBelow(code: seq<byte>)
    ensures forall pc :: Fetcher(code)(pc).Some? ==> pc < |code|
  {
    forall pc ensures Fetcher(code)(pc).Some? ==> pc < |code| {}
  }
}
