/** Patterns and their language.  Flags are 0 and the subject is 8-bit, as in the
    only callers. */
module RegexSyntax {
  import opened Basics
  import opened Intervals

  /** The repetition count the parser stores for "no upper limit". */
  const INFINITE: int := INT32_MAX

  datatype Re =
    | Empty
    | Char(c: int)
    | Dot
    | Class(points: seq<int>)             // sorted interval end points of a CharRange
    | LineStart
    | LineEnd
    | WordBoundary(negated: bool)
    | Cat(first: Re, second: Re)
    | Alt(left: Re, right: Re)
    | Group(body: Re)                     // capturing; groups are numbered left to right
    | Look(negated: bool, body: Re)       // forward lookahead
    | Quant(body: Re, min: nat, max: nat, greedy: bool)

  /** Number of capturing groups. */
  function Groups(r: Re): nat {
    match r
    case Cat(a, b) => Groups(a) + Groups(b)
    case Alt(a, b) => Groups(a) + Groups(b)
    case Group(b) => 1 + Groups(b)
    case Look(_, b) => Groups(b)
    case Quant(b, _, _, _) => Groups(b)
    case _ => 0
  }

  /** What the parser can hand to the code generator. */
  ghost predicate WellFormed(r: Re) {
    match r
    case Char(c) => 0 <= c < 0x4000_0000
    case Class(points) => Compressed(points)
    case Cat(a, b) => WellFormed(a) && WellFormed(b)
    case Alt(a, b) => WellFormed(a) && WellFormed(b)
    case Group(b) => WellFormed(b)
    case Look(_, b) => WellFormed(b)
    case Quant(b, min, max, _) => WellFormed(b) && min < INFINITE && min <= max <= INFINITE
    case _ => true
  }

  /** No class has more intervals than the compiler accepts. */
  predicate SmallClasses(r: Re) {
    match r
    case Class(points) => |points| / 2 < 65535
    case Cat(a, b) => SmallClasses(a) && SmallClasses(b)
    case Alt(a, b) => SmallClasses(a) && SmallClasses(b)
    case Group(b) => SmallClasses(b)
    case Look(_, b) => SmallClasses(b)
    case Quant(b, _, _, _) => SmallClasses(b)
    case _ => true
  }

  predicate IsLineTerminator(c: int) {
    c == 0x0a || c == 0x0d || c == 0x2028 || c == 0x2029
  }

  predicate IsWordChar(c: int) {
    0x30 <= c <= 0x39 || 0x61 <= c <= 0x7a || 0x41 <= c <= 0x5a || c == 0x5f
  }

  predicate LetterDigitUnderscore(c: char) {
    c in {
      'a', 'b', 'c', 'd', 'e', 'f', 'g', 'h', 'i', 'j', 'k', 'l', 'm', 'n', 'o', 'p', 'q', 'r', 's', 't', 'u', 'v', 'w', 'x', 'y', 'z',
      'A', 'B', 'C', 'D', 'E', 'F', 'G', 'H', 'I', 'J', 'K', 'L', 'M', 'N', 'O', 'P', 'Q', 'R', 'S', 'T', 'U', 'V', 'W', 'X', 'Y', 'Z',
      '0', '1', '2', '3', '4', '5', '6', '7', '8', '9', '_'
    }
  }

  /** What the two classes hold, character by character. */
  lemma WordCharacters(c: char)
    ensures IsWordChar(c as int) <==> LetterDigitUnderscore(c)
    ensures IsLineTerminator(c as int) <==> c in {'\n', '\r', '\U{2028}', '\U{2029}'}
  {
  }

  predicate WordEdge(s: seq<byte>, i: int) {
    (0 < i <= |s| && IsWordChar(s[i - 1])) != (0 <= i < |s| && IsWordChar(s[i]))
  }

  // ----- The language of a pattern: section 21.2.2 of ECMA-262, 11th edition -----

  /** Start and end positions of matches. */
  type Rel = (int, int) -> bool

  ghost predicate Compose(first: Rel, second: Rel, i: int, j: int) {
    exists k :: first(i, k) && second(k, j)
  }

  /** Some match starts at `i`. */
  ghost predicate Starts(rel: Rel, i: int) {
    exists k :: rel(i, k)
  }

  /** Exactly `n` consecutive matches. */
  ghost predicate Power(rel: Rel, n: nat, i: int, j: int)
    decreases n
  {
    if n == 0 then i == j else exists k :: rel(i, k) && Power(rel, n - 1, k, j)
  }

  ghost predicate PowerBetween(rel: Rel, min: nat, max: nat, i: int, j: int) {
    exists n: nat :: min <= n && (max == INFINITE || n <= max) && Power(rel, n, i, j)
  }

  /** The pattern matches `s[i..j]` in the context of the whole subject `s`. */
  ghost predicate Matches(r: Re, s: seq<byte>, i: int, j: int)
    decreases r, 0
  {
    match r
    case Empty => i == j
    case Char(c) => 0 <= i < |s| && s[i] == c && j == i + 1
    case Dot => 0 <= i < |s| && !IsLineTerminator(s[i]) && j == i + 1
    case Class(points) => 0 <= i < |s| && InIntervals(points, s[i]) && j == i + 1
    case LineStart => i == j == 0
    case LineEnd => i == j == |s|
    case WordBoundary(negated) => i == j && WordEdge(s, i) != negated
    case Cat(a, b) => Compose(Language(a, s), Language(b, s), i, j)
    case Alt(a, b) => Language(a, s)(i, j) || Language(b, s)(i, j)
    case Group(b) => Language(b, s)(i, j)
    case Look(negated, b) => i == j && Starts(Language(b, s), i) != negated
    case Quant(b, min, max, _) => PowerBetween(Language(b, s), min, max, i, j)
  }

  ghost function Language(r: Re, s: seq<byte>): Rel
    decreases r, 1
  {
    (i, j) => Matches(r, s, i, j)
  }
}
