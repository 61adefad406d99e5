/** A whole compilation: the program behind its header. */
module RegexProgram {
  import opened Basics
  import opened RegexSyntax
  import opened RegexCode
  import opened RegexGen
  import opened RegexStack
  import opened RegexInvariant
  import opened RegexCompiler

  const STACK_SIZE_MAX: int := 255

  lemma NothingStacked(f: Code)
    ensures Len(f[..0]) == 0 && MaxDepth(f[..0]) == 0 && Net(f[..0]) == 0
  {
  }

  lemma StackOpcodes(i: Instr)
    ensures Opcode(i) in {15, 25} <==> Effect(i) == 1
    ensures Opcode(i) in {16, 26} <==> Effect(i) == -1
    ensures -1 <= Effect(i) <= 1
  {
  }

  lemma DepthHere(f: Code, k: nat)
    requires k < |f|
    ensures MaxDepth(f[..k + 1]) == Max(MaxDepth(f[..k]), Net(f[..k]) + Effect(f[k]))
    ensures Net(f[..k + 1]) == Net(f[..k]) + Effect(f[k])
  {
    hide MaxDepth, Net, Effect, Max;
    assert f[..k + 1] == f[..k] + [f[k]];
    DepthSnoc(f[..k], f[k]);
    NetConcat(f[..k], [f[k]]);
    UnitMeasures(f[k]);
  }

  lemma {:induction false} DepthGrows(f: Code, k: nat)
    requires k <= |f|
    ensures MaxDepth(f[..k]) <= MaxDepth(f)
    decreases |f| - k
  {
    if k < |f| {
      DepthHere(f, k);
      DepthGrows(f, k + 1);
    } else {
      assert f[..k] == f;
    }
  }

  /** No instruction takes from an empty stack in the linear order of the scan. */
  ghost predicate NeverBelow(f: Code) {
    forall k :: 0 <= k < |f| && Effect(f[k]) < 0 ==> Net(f[..k]) > 0
  }

  /** The stack size a program needs, or -1 when it is too large to store. */
  method ComputeStackSize(buf: seq<byte>, ghost f: Code) returns (size: int)
    requires buf == Bytes(f) && CountsFit(f) && NeverBelow(f)
    ensures size == if MaxDepth(f) <= STACK_SIZE_MAX then MaxDepth(f) else -1
  {
    hide Bytes, Len, MaxDepth, Net, CountsFit;
    var stack := 0;
    size := 0;
    var pos := 0;
    ghost var k := 0;
    NothingStacked(f);
    while pos < |buf|
      invariant 0 <= k <= |f| && pos == Len(f[..k])
      invariant stack == Net(f[..k]) && size == MaxDepth(f[..k]) <= STACK_SIZE_MAX && stack <= size
      decreases |f| - k
    {
      ScanHere(buf, f, k);
      StackOpcodes(f[k]);
      DepthHere(f, k);
      var opcode := buf[pos];
      var len := SizeAt(buf, pos);
      assert pos + len <= |buf|;
      if opcode in {15, 25} {
        stack := stack + 1;
        if stack > size {
          if stack > STACK_SIZE_MAX {
            DepthGrows(f, k + 1);
            return -1;
          }
          size := stack;
        }
      } else if opcode in {16, 26} {
        assert stack > 0;
        stack := stack - 1;
      }
      pos := pos + len;
      k := k + 1;
    }
    ScanEnds(f, k);
  }

  lemma ProgramScannable(r: Re)
    requires SmallClasses(r)
    ensures CountsFit(Program(r)) && NeverBelow(Program(r))
  {
    hide Balanced, MaxDepth, Gen, GroupCode, SearchLoop, Body0, SplitOk;
    ProgramBalanced(r);
    CountsGen(r, 1);
    CountsGroup(0, Gen(r, 1));
    CountsConcat(GroupCode(0, Gen(r, 1)), [IMatch]);
    SearchCounts();
    CountsConcat(SearchLoop(), GroupCode(0, Gen(r, 1)) + [IMatch]);
    BalancedNeverBelow(Body0(r), 2 * Groups(r) + 2);
  }

  lemma SearchCounts()
    ensures CountsFit(SearchLoop())
  {
  }

  lemma BalancedNeverBelow(x: Code, slots: nat)
    requires Balanced(x, slots)
    ensures NeverBelow(x + [IMatch])
  {
    hide Boundary, AtomAhead;
    var f := x + [IMatch];
    forall k | 0 <= k < |f| && Effect(f[k]) < 0 ensures Net(f[..k]) > 0 {
      assert k < |x| && f[k] == x[k] && f[..k] == x[..k];
      assert InstrOk(x, slots, k);
    }
  }

  /** Patterns `lre_compile` accepts. */
  predicate Accepted(r: Re) {
    SmallClasses(r) && Groups(r) < 255 && MaxDepth(Program(r)) <= STACK_SIZE_MAX
  }

  /** Flags, capture count, stack size, code length, code. */
  function Image(r: Re): seq<byte>
    requires Accepted(r)
  {
    [0, Groups(r) + 1, MaxDepth(Program(r))] + U32Bytes(Len(Program(r))) + Bytes(Program(r))
  }

  lemma ProgramBytes(r: Re)
    ensures Bytes(Program(r)) == ([8] + U32Bytes(6)) + ([4] + (([7] + U32Bytes(-11)) +
            (([11] + [0]) + (Bytes(Gen(r, 1)) + ([12] + [0])) + [10])))
  {
    hide Bytes, Len, Gen, U32Bytes, Encode, GroupCode;
    var body := GroupCode(0, Gen(r, 1)) + [IMatch];
    assert Program(r) == [ISplit(false, 6)] + ([IAny] + ([IGoto(-11)] + body));
    BytesHead(ISplit(false, 6), [IAny] + ([IGoto(-11)] + body));
    BytesHead(IAny, [IGoto(-11)] + body);
    BytesHead(IGoto(-11), body);
    BytesSnoc(GroupCode(0, Gen(r, 1)), IMatch);
    GroupBytes(0, Gen(r, 1));
    JumpBytes(8, 6);
    JumpBytes(7, -11);
    SmallBytes();
    AnyBytes();
  }

  lemma AnyBytes()
    ensures Encode(IAny) == [4]
  {
  }

  /** Emits the search loop, the pattern as group 0 and the final match. */
  method EmitProgram(c: Compiler, r: Re) returns (ok: bool)
    requires WellFormed(r) && c.Ok() && c.captureCount == 1
    modifies c, c.dbuf, c.dbuf.buf
    ensures c.Ok() && (c.dbuf.buf == old(c.dbuf.buf) || fresh(c.dbuf.buf))
    ensures ok <==> SmallClasses(r) && Groups(r) < 255
    ensures ok ==> c.captureCount == Groups(r) + 1 && c.code == old(c.code) + Bytes(Program(r))
  {
    hide Bytes, Gen, Program, U32Bytes, Compiler.Ok;
    ProgramBytes(r);
    ghost var pre, cc := c.code, c.captureCount;
    ghost var search := ([8] + U32Bytes(6)) + [4] + ([7] + U32Bytes(-11));
    EmitSearch(c);
    assert c.code == pre + search;
    c.EmitOpU8(11, 0);
    ghost var before := c.code;
    ok := c.Term(r);
    if ok {
      c.EmitOpU8(12, 0);
      c.EmitOp(10);
      assert c.code == before + Bytes(Gen(r, 1)) + [12, 0] + [10];
      ProgramPieces(pre, search, Bytes(Gen(r, 1)), ([8] + U32Bytes(6)), ([7] + U32Bytes(-11)));
    }
  }

  lemma ProgramPieces(pre: seq<byte>, search: seq<byte>, body: seq<byte>, split: seq<byte>, jump: seq<byte>)
    requires search == split + [4] + jump
    ensures (pre + search) + ([11] + [0]) + body + [12, 0] + [10] ==
            pre + (split + ([4] + (jump + (([11] + [0]) + (body + ([12] + [0])) + [10]))))
  {
  }

  /** The loop in front of the pattern that tries the next start. */
  method EmitSearch(c: Compiler)
    requires c.Ok()
    modifies c`code, c.dbuf, c.dbuf.buf
    ensures c.Ok() && (c.dbuf.buf == old(c.dbuf.buf) || fresh(c.dbuf.buf))
    ensures c.code == old(c.code) + (([8] + U32Bytes(6)) + [4] + ([7] + U32Bytes(-11)))
  {
    hide U32Bytes, Compiler.Ok;
    var _ := c.EmitOpU32(8, 6);
    c.EmitOp(4);
    var _ := c.EmitOpU32(7, -11);
  }

  /** Compiles a pattern, or fails exactly when it is not accepted. */
  method Compile(r: Re) returns (image: Option<seq<byte>>)
    requires WellFormed(r)
    ensures image == if Accepted(r) then Some(Image(r)) else None
  {
    hide Bytes, Len, Program, MaxDepth, U32Bytes, CountsFit, NeverBelow, Compiler.Ok, Image, SmallClasses;
    var c := new Compiler();
    EmitHeader(c);
    var ok := EmitProgram(c, r);
    if !ok {
      return None;
    }
    assert c.code[7..] == Bytes(Program(r));
    ProgramScannable(r);
    var program := c.From(7);
    var stack := ComputeStackSize(program, Program(r));
    if stack < 0 {
      return None;
    }
    FillHeader(c, stack, Bytes(Program(r)));
    ImageIs(r);
    var all := c.From(0);
    assert c.code[0..] == c.code;
    return Some(all);
  }

  /** Room for the header. */
  method EmitHeader(c: Compiler)
    requires c.Ok() && c.code == []
    modifies c`code, c.dbuf, c.dbuf.buf
    ensures c.Ok() && (c.dbuf.buf == old(c.dbuf.buf) || fresh(c.dbuf.buf)) && |c.code| == 7 && c.code[0] == 0
  {
    hide U32Bytes, Compiler.Ok;
    c.EmitOp(0);
    c.EmitOp(0);
    c.EmitOp(0);
    c.Append(U32Bytes(0));
  }

  lemma ImageIs(r: Re)
    requires Accepted(r)
    ensures Image(r) == [0, Groups(r) + 1, MaxDepth(Program(r))] + U32Bytes(|Bytes(Program(r))|) + Bytes(Program(r))
  {
    hide Program, MaxDepth, U32Bytes;
  }

  method FillHeader(c: Compiler, stack: byte, ghost program: seq<byte>)
    requires c.Ok() && |c.code| == 7 + |program| && c.code[0] == 0 && c.code[7..] == program && c.captureCount < 256
    modifies c`code, c.dbuf, c.dbuf.buf
    ensures c.Ok()
    ensures c.code == [0, c.captureCount, stack] + U32Bytes(|program|) + program
  {
    hide U32Bytes;
    c.Put(1, [c.captureCount]);
    assert |c.code| == 7 + |program| && c.code[0] == 0 && c.code[1] == c.captureCount && c.code[7..] == program;
    c.Put(2, [stack]);
    assert |c.code| == 7 + |program| && c.code[..3] == [0, c.captureCount, stack] && c.code[7..] == program;
    var size := c.Size();
    c.Put(3, U32Bytes(size - 7));
  }
}
