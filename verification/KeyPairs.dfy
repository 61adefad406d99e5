/** Key/value pairs packed as C strings in one fixed buffer. */
module KeyPairs {
  import opened Basics
  import opened Memory

  const BUFLEN: nat := 8192

  type Text = seq<byte>
  type Pair = (Text, Text)

  /** A C string: no byte is 0. */
  predicate IsText(s: Text) {
    forall i :: 0 <= i < |s| ==> s[i] != 0
  }

  // ----- The ordered map -----

  /** How many pairs a search can see: it stops at the first empty key. */
  function Visible(ps: seq<Pair>): (n: nat)
    ensures n <= |ps| && (n < |ps| ==> ps[n].0 == [])
    ensures forall i :: 0 <= i < n ==> ps[i].0 != []
  {
    if ps == [] || ps[0].0 == [] then 0 else 1 + Visible(ps[1..])
  }

  predicate WellFormed(ps: seq<Pair>) {
    && (forall i :: 0 <= i < |ps| ==> IsText(ps[i].0) && IsText(ps[i].1))
    && (forall i, j :: 0 <= i < j < Visible(ps) ==> ps[i].0 != ps[j].0)
  }

  function Lookup(ps: seq<Pair>, key: Text): Option<Text> {
    if ps == [] || ps[0].0 == [] then None
    else if ps[0].0 == key then Some(ps[0].1)
    else Lookup(ps[1..], key)
  }

  /** Replaces the value of a key in place, or appends the pair. */
  function Update(ps: seq<Pair>, key: Text, value: Text): seq<Pair> {
    if ps == [] || ps[0].0 == [] then ps + [(key, value)]
    else if ps[0].0 == key then [(key, value)] + ps[1..]
    else [ps[0]] + Update(ps[1..], key, value)
  }

  function Remove(ps: seq<Pair>, key: Text): seq<Pair> {
    if ps == [] || ps[0].0 == [] then ps
    else if ps[0].0 == key then ps[1..]
    else [ps[0]] + Remove(ps[1..], key)
  }

  /** A new value of `key` can be found again: the key has a value already, or no empty key stands in the way. */
  predicate Settable(ps: seq<Pair>, key: Text) {
    Lookup(ps, key).Some? || (key != [] && forall i :: 0 <= i < |ps| ==> ps[i].0 != [])
  }

  lemma {:induction false} LookupUpdate(ps: seq<Pair>, key: Text, value: Text, other: Text)
    ensures Lookup(Update(ps, key, value), other) ==
            if other == key && Settable(ps, key) then Some(value) else Lookup(ps, other)
  {
    if ps == [] {
    } else if ps[0].0 == [] {
      assert (ps + [(key, value)])[0] == ps[0];
    } else if ps[0].0 != key {
      LookupUpdate(ps[1..], key, value, other);
      assert (forall i :: 0 <= i < |ps| ==> ps[i].0 != []) <==>
             (forall i :: 0 <= i < |ps[1..]| ==> ps[1..][i].0 != []) by { NoEmptyKey(ps); }
    }
  }

  lemma NoEmptyKey(ps: seq<Pair>)
    requires ps != [] && ps[0].0 != []
    ensures (forall i :: 0 <= i < |ps| ==> ps[i].0 != []) <==> forall i :: 0 <= i < |ps[1..]| ==> ps[1..][i].0 != []
  {
    if forall i :: 0 <= i < |ps[1..]| ==> ps[1..][i].0 != [] {
      forall i | 0 <= i < |ps| ensures ps[i].0 != [] { if i > 0 { assert ps[i] == ps[1..][i - 1]; } }
    }
  }

  /** Reading a key back gives the value just set exactly when the key is settable. */
  lemma SetThenGet(ps: seq<Pair>, key: Text, value: Text)
    ensures Lookup(Update(ps, key, value), key) == Some(value) <==> Settable(ps, key)
    ensures !Settable(ps, key) ==> Lookup(Update(ps, key, value), key) == None
  {
    LookupUpdate(ps, key, value, key);
  }

  /** Once an empty key is stored a new key is lost: it takes up space and is never found. */
  lemma EmptyKeyHides(value: Text, key: Text, other: Text)
    ensures Lookup(Update(Update([], [], value), key, other), key) == None
    ensures |Update(Update([], [], value), key, other)| == 2
  {
    SetThenGet(Update([], [], value), key, other);
  }

  lemma {:induction false} LookupRemove(ps: seq<Pair>, key: Text, other: Text)
    requires WellFormed(ps)
    ensures Lookup(Remove(ps, key), other) == if other == key then None else Lookup(ps, other)
  {
    if ps == [] || ps[0].0 == [] {
    } else if ps[0].0 == key {
      LookupAt(ps[1..], key);
      FoundOnce(ps);
    } else {
      assert forall i :: 0 <= i < |ps[1..]| ==> ps[1..][i] == ps[i + 1];
      LookupRemove(ps[1..], key, other);
    }
  }

  lemma FoundOnce(ps: seq<Pair>)
    requires WellFormed(ps) && ps != [] && ps[0].0 != []
    ensures Find(ps[1..], ps[0].0) == |ps| - 1
  {
    assert Visible(ps) == 1 + Visible(ps[1..]);
    assert forall i :: 0 <= i < |ps[1..]| ==> ps[1..][i] == ps[i + 1];
  }

  /** The index at which a search finds a key, or the number of pairs. */
  function Find(ps: seq<Pair>, key: Text): (n: nat)
    ensures n <= |ps| && (n < |ps| ==> ps[n].0 == key && n < Visible(ps))
    ensures forall i :: 0 <= i < n && i < Visible(ps) ==> ps[i].0 != key
  {
    if ps == [] || ps[0].0 == [] then |ps|
    else if ps[0].0 == key then 0
    else 1 + Find(ps[1..], key)
  }

  lemma {:induction false} UpdateAt(ps: seq<Pair>, key: Text, value: Text)
    ensures Update(ps, key, value) == Placed(ps, Find(ps, key), (key, value))
  {
    hide Visible, Placed;
    if ps == [] || ps[0].0 == [] {
      PlacedLast(ps, (key, value));
    } else if ps[0].0 == key {
      PlacedFirst(ps, (key, value));
    } else {
      UpdateAt(ps[1..], key, value);
      PlacedNext(ps, Find(ps[1..], key), (key, value));
    }
  }

  /** `p` in place of pair `n`, or behind the last pair. */
  function Placed(ps: seq<Pair>, n: nat, p: Pair): (q: seq<Pair>)
    requires n <= |ps|
    ensures |q| == (if n < |ps| then |ps| else |ps| + 1) && q[n] == p
    ensures forall i :: 0 <= i < |q| && i != n ==> q[i] == ps[i]
  {
    ps[..n] + [p] + (if n < |ps| then ps[n + 1..] else [])
  }

  lemma PlacedLast(ps: seq<Pair>, p: Pair)
    ensures Placed(ps, |ps|, p) == ps + [p]
  {
  }

  lemma PlacedFirst(ps: seq<Pair>, p: Pair)
    requires ps != []
    ensures Placed(ps, 0, p) == [p] + ps[1..]
  {
  }

  lemma PlacedNext(ps: seq<Pair>, n: nat, p: Pair)
    requires ps != [] && n < |ps|
    ensures Placed(ps, n + 1, p) == [ps[0]] + Placed(ps[1..], n, p)
  {
    var q, r := Placed(ps, n + 1, p), Placed(ps[1..], n, p);
    assert |q| == 1 + |r|;
    forall i | 0 <= i < |q| ensures q[i] == ([ps[0]] + r)[i] {}
  }

  lemma {:induction false} RemoveAt(ps: seq<Pair>, key: Text)
    ensures Remove(ps, key) == Without(ps, Find(ps, key))
  {
    hide Visible, Without;
    if ps == [] || ps[0].0 == [] {
      WithoutNone(ps);
    } else if ps[0].0 == key {
      WithoutFirst(ps);
    } else {
      RemoveAt(ps[1..], key);
      WithoutNext(ps, Find(ps[1..], key));
    }
  }

  /** The pairs except pair `n`, if there is one. */
  function Without(ps: seq<Pair>, n: nat): (q: seq<Pair>)
    requires n <= |ps|
    ensures n < |ps| ==> |q| == |ps| - 1 && forall i :: 0 <= i < |q| ==> q[i] == ps[if i < n then i else i + 1]
  {
    if n < |ps| then ps[..n] + ps[n + 1..] else ps
  }

  lemma WithoutNone(ps: seq<Pair>)
    ensures Without(ps, |ps|) == ps
  {
  }

  lemma WithoutFirst(ps: seq<Pair>)
    requires ps != []
    ensures Without(ps, 0) == ps[1..]
  {
  }

  lemma WithoutNext(ps: seq<Pair>, n: nat)
    requires ps != [] && n < |ps|
    ensures Without(ps, n + 1) == [ps[0]] + Without(ps[1..], n)
  {
    assert ps == [ps[0]] + ps[1..];
    var q, r := Without(ps, n + 1), Without(ps[1..], n);
    assert |q| == 1 + |r|;
    forall i | 0 <= i < |q| ensures q[i] == ([ps[0]] + r)[i] {}
  }

  lemma {:induction false} LookupAt(ps: seq<Pair>, key: Text)
    ensures var n := Find(ps, key);
            Lookup(ps, key) == if n < |ps| then Some(ps[n].1) else None
  {
    if ps != [] && ps[0].0 != [] && ps[0].0 != key { LookupAt(ps[1..], key); }
  }

  lemma UpdateWellFormed(ps: seq<Pair>, key: Text, value: Text)
    requires WellFormed(ps) && IsText(key) && IsText(value)
    ensures WellFormed(Update(ps, key, value))
  {
    hide Visible, Find, Update, Placed;
    UpdateAt(ps, key, value);
  }

  lemma RemoveWellFormed(ps: seq<Pair>, key: Text)
    requires WellFormed(ps)
    ensures WellFormed(Remove(ps, key))
  {
    hide Visible, Find, Remove;
    RemoveAt(ps, key);
    var q := Remove(ps, key);
    if Find(ps, key) < |ps| {
      assert Visible(q) < Visible(ps) by {
        assert Visible(ps) <= |q| ==> q[Visible(ps) - 1] == ps[Visible(ps)];
      }
    }
  }

  // ----- The bytes -----

  function PairBytes(p: Pair): seq<byte> {
    (p.0 + [0]) + (p.1 + [0])
  }

  /** The pairs one after another, each string with its terminator. */
  function Flatten(ps: seq<Pair>): seq<byte> {
    if ps == [] then [] else PairBytes(ps[0]) + Flatten(ps[1..])
  }

  lemma {:induction false} FlattenConcat(a: seq<Pair>, b: seq<Pair>)
    ensures Flatten(a + b) == Flatten(a) + Flatten(b)
    decreases |a|
  {
    hide PairBytes;
    if a == [] {
      assert a + b == b;
    } else {
      assert (a + b)[1..] == a[1..] + b;
      FlattenConcat(a[1..], b);
    }
  }

  lemma FlattenSplit(ps: seq<Pair>, n: nat)
    requires n < |ps|
    ensures Flatten(ps) == Flatten(ps[..n]) + (PairBytes(ps[n]) + Flatten(ps[n + 1..]))
  {
    hide PairBytes;
    assert ps == ps[..n] + ps[n..];
    FlattenConcat(ps[..n], ps[n..]);
    assert ps[n..][1..] == ps[n + 1..];
  }

  /** The C string that starts at `p`. */
  function TextAt(b: seq<byte>, p: nat): (s: Text)
    requires p <= |b|
    ensures p + |s| <= |b|
    decreases |b| - p
  {
    if p == |b| || b[p] == 0 then [] else [b[p]] + TextAt(b, p + 1)
  }

  lemma {:induction false} TextStored(b: seq<byte>, p: nat, s: Text)
    requires IsText(s) && Stored(b, p, s + [0])
    ensures TextAt(b, p) == s && p + |s| < |b| && b[p + |s|] == 0
    decreases |s|
  {
    var w := b[p..p + |s| + 1];
    assert w == s + [0];
    if s == [] {
      assert b[p] == w[0];
    } else {
      assert b[p] == w[0] == s[0];
      assert b[p + 1..p + 1 + |s[1..]| + 1] == w[1..] == s[1..] + [0];
      TextStored(b, p + 1, s[1..]);
    }
  }

  /** Copies a string and its terminator. */
  method StrCpy(a: array<byte>, dst: nat, s: Text)
    requires dst + |s| + 1 <= a.Length
    modifies a
    ensures a[..] == Overwrite(old(a[..]), dst, s + [0])
  {
    hide Overwrite;
    var i := 0;
    OverwriteNothing(a[..], dst);
    assert s[..0] == [];
    while i < |s|
      invariant 0 <= i <= |s| && a[..] == Overwrite(old(a[..]), dst, s[..i])
    {
      OverwriteNext(old(a[..]), dst, s[..i], s[i]);
      assert s[..i + 1] == s[..i] + [s[i]];
      a[dst + i] := s[i];
      i := i + 1;
    }
    assert s[..i] == s;
    OverwriteNext(old(a[..]), dst, s, 0);
    a[dst + i] := 0;
  }

  lemma OverwriteNothing(b: seq<byte>, p: nat)
    requires p <= |b|
    ensures Overwrite(b, p, []) == b
  {
  }

  lemma OverwriteNext(b: seq<byte>, p: nat, w: seq<byte>, x: byte)
    requires p + |w| < |b|
    ensures Overwrite(b, p, w)[p + |w| := x] == Overwrite(b, p, w + [x])
  {
  }

  /** Moving what follows a value and writing the new value replaces it. */
  lemma Replaced(b: seq<byte>, last: nat, pre: seq<byte>, v: seq<byte>, post: seq<byte>, w: seq<byte>)
    requires last <= |b| && b[..last] == pre + (v + post) && last - |v| + |w| <= |b|
    ensures var moved := Overwrite(b, |pre| + |w|, b[|pre| + |v|..last]);
            Overwrite(moved, |pre|, w)[..last - |v| + |w|] == pre + (w + post)
    ensures |v| == |w| ==> Overwrite(b, |pre|, w)[..last] == pre + (w + post)
  {
    var tail := b[|pre| + |v|..last];
    assert tail == b[..last][|pre| + |v|..] == post;
    var moved := Overwrite(b, |pre| + |w|, tail);
    assert moved[..|pre|] == b[..last][..|pre|] == pre;
    assert moved[|pre| + |w|..|pre| + |w| + |post|] == post;
    if |v| == |w| {
      assert Overwrite(b, |pre|, w)[|pre| + |w|..last] == post;
      assert b[..|pre|] == b[..last][..|pre|];
    }
  }

  class KeyPairs {
    const buf: array<byte>
    var last: nat
    ghost var pairs: seq<Pair>

    constructor ()
      ensures Valid() && pairs == [] && fresh(buf)
    {
      buf := new byte[BUFLEN](_ => 0);
      last, pairs := 0, [];
    }

    ghost predicate Valid()
      reads this, buf
    {
      buf.Length == BUFLEN && last <= BUFLEN && WellFormed(pairs) && buf[..last] == Flatten(pairs)
    }

    /** The offset of the value of a key, as the pointer that is returned. */
    method Get(key: Text) returns (val: Option<nat>)
      requires Valid() && IsText(key)
      ensures val == None <==> Lookup(pairs, key) == None
      ensures val.Some? ==> val.value == ValueOffset(pairs, Find(pairs, key)) <= last
      ensures val.Some? ==> Find(pairs, key) < |pairs| && TextAt(buf[..], val.value) == pairs[Find(pairs, key)].1
    {
      hide Flatten, PairBytes, Lookup, Visible, Find, Offset, TextAt, IsText;
      LookupAt(pairs, key);
      var ptr := 0;
      ghost var n := 0;
      OffsetStart(pairs);
      while ptr < last
        invariant 0 <= n <= Visible(pairs) && n <= Find(pairs, key) && ptr == Offset(pairs, n)
        decreases |pairs| - n
      {
        OffsetEnd(pairs);
        PairStored(buf[..], last, pairs, n);
        OffsetNext(pairs, n);
        if buf[ptr] == 0 {
          return None;
        }
        var name := TextAt(buf[..], ptr);
        if name == key {
          ptr := ptr + |name| + 1;
          return Some(ptr);
        }
        ptr := ptr + |name| + 1;
        ptr := ptr + |TextAt(buf[..], ptr)| + 1;
        n := n + 1;
      }
      OffsetEnd(pairs);
      OffsetGrows(pairs, n);
      return None;
    }

    /** Sets a key; fails, changing nothing, exactly when the pairs would not fit. */
    method Set(key: Text, value: Text) returns (ok: bool)
      requires Valid() && IsText(key) && IsText(value)
      modifies this, buf
      ensures Valid() && (ok <==> |Flatten(Update(old(pairs), key, value))| <= BUFLEN)
      ensures pairs == if ok then Update(old(pairs), key, value) else old(pairs)
      ensures !ok ==> unchanged(this) && unchanged(buf)
    {
      hide Flatten, Lookup, Update, WellFormed, Offset;
      LookupAt(pairs, key);
      UpdateWellFormed(pairs, key, value);
      var val := Get(key);
      if val.Some? {
        ok := Replace(val.value, key, value);
      } else {
        ok := Append(key, value);
      }
      if ok {
        pairs := Update(pairs, key, value);
      }
    }

    /** Writes a new value over the one at `at`, moving what follows it. */
    method Replace(at: nat, ghost key: Text, value: Text) returns (ok: bool)
      requires Valid() && Find(pairs, key) < |pairs| && at == ValueOffset(pairs, Find(pairs, key))
      modifies this`last, buf
      ensures ok <==> |Flatten(Update(pairs, key, value))| <= BUFLEN
      ensures ok ==> last <= BUFLEN && buf[..last] == Flatten(Update(pairs, key, value))
      ensures !ok ==> unchanged(this) && unchanged(buf)
    {
      hide Flatten, Update, WellFormed, Overwrite, Offset;
      ReplaceBytes(buf[..], last, pairs, key, value);
      PairStored(buf[..], last, pairs, Find(pairs, key));
      var len := |value| + 1;
      var valLen := |TextAt(buf[..], at)| + 1;
      var next := at + valLen;
      if len == valLen {
        StrCpy(buf, at, value);
      } else if len > valLen {
        var delta := len - valLen;
        if last + delta > BUFLEN {
          return false;
        }
        MemMove(buf, next + delta, next, last - next);
        last := last + delta;
        StrCpy(buf, at, value);
      } else {
        var delta := valLen - len;
        MemMove(buf, next - delta, next, last - next);
        last := last - delta;
        StrCpy(buf, at, value);
      }
      return true;
    }

    method Append(key: Text, value: Text) returns (ok: bool)
      requires Valid() && Find(pairs, key) == |pairs|
      modifies this`last, buf
      ensures ok <==> |Flatten(Update(pairs, key, value))| <= BUFLEN
      ensures ok ==> last <= BUFLEN && buf[..last] == Flatten(Update(pairs, key, value))
      ensures !ok ==> unchanged(this) && unchanged(buf)
    {
      hide Flatten, Update, WellFormed, Overwrite;
      AppendBytes(buf[..], last, pairs, key, value);
      var keyLen, valLen := |key| + 1, |value| + 1;
      if keyLen + valLen > BUFLEN - last {
        return false;
      }
      StrCpy(buf, last, key);
      StrCpy(buf, last + keyLen, value);
      last := last + keyLen + valLen;
      return true;
    }

    /** Removes a key, if it is there. */
    method Delete(key: Text)
      requires Valid() && IsText(key)
      modifies this, buf
      ensures Valid() && pairs == Remove(old(pairs), key)
    {
      hide Flatten, PairBytes, Lookup, Remove, WellFormed, Overwrite, Offset;
      ghost var n := Find(pairs, key);
      LookupAt(pairs, key);
      RemoveWellFormed(pairs, key);
      var val := Get(key);
      if val == None {
        RemoveAbsent(pairs, key);
        return;
      }
      RemoveBytes(buf[..], last, pairs, key);
      PairStored(buf[..], last, pairs, n);
      var at := val.value;
      var keyLen, valLen := |key| + 1, |TextAt(buf[..], at)| + 1;
      MemMove(buf, at - keyLen, at + valLen, last - at - valLen);
      last := last - (keyLen + valLen);
      pairs := Remove(pairs, key);
      if last == 0 {
        buf[0] := 0;
        assert buf[..0] == [];
      }
    }
  }

  lemma ReplaceBytes(b: seq<byte>, last: nat, ps: seq<Pair>, key: Text, value: Text)
    requires last <= |b| && b[..last] == Flatten(ps) && Find(ps, key) < |ps|
    ensures var n := Find(ps, key); var at, v := ValueOffset(ps, n), ps[n].1;
            var size := last - |v| + |value|;
            && at + |v| + 1 <= last && |Flatten(Update(ps, key, value))| == size
            && (size <= |b| ==>
              Overwrite(Overwrite(b, at + |value| + 1, b[at + |v| + 1..last]), at, value + [0])[..size] == Flatten(Update(ps, key, value)))
            && (|v| == |value| ==> Overwrite(b, at, value + [0])[..last] == Flatten(Update(ps, key, value)))
  {
    hide Flatten, Overwrite, Update;
    var n := Find(ps, key);
    var v, post := ps[n].1, Flatten(ps[n + 1..]);
    var pre := Flatten(ps[..n]) + (key + [0]);
    FlattenSplit(ps, n);
    assert Flatten(ps) == pre + ((v + [0]) + post);
    UpdateAt(ps, key, value);
    var q := Update(ps, key, value);
    assert q[..n] == ps[..n] && q[n] == (key, value) && q[n + 1..] == ps[n + 1..];
    FlattenSplit(q, n);
    assert Flatten(q) == pre + ((value + [0]) + post);
    if last - |v| + |value| <= |b| { Replaced(b, last, pre, v + [0], post, value + [0]); }
  }

  lemma AppendBytes(b: seq<byte>, last: nat, ps: seq<Pair>, key: Text, value: Text)
    requires last <= |b| && b[..last] == Flatten(ps) && Find(ps, key) == |ps|
    ensures var size := last + |key| + 1 + |value| + 1;
            && |Flatten(Update(ps, key, value))| == size
            && (size <= |b| ==>
              Overwrite(Overwrite(b, last, key + [0]), last + |key| + 1, value + [0])[..size] == Flatten(Update(ps, key, value)))
  {
    hide Flatten;
    UpdateAt(ps, key, value);
    assert ps[..|ps|] == ps && Update(ps, key, value) == ps + [(key, value)];
    FlattenConcat(ps, [(key, value)]);
    FlattenOne((key, value));
    if last + |key| + 1 + |value| + 1 <= |b| {
      var c := Overwrite(b, last, key + [0]);
      assert c[..last + |key| + 1] == b[..last] + (key + [0]);
    }
  }

  lemma FlattenOne(p: Pair)
    ensures Flatten([p]) == PairBytes(p)
  {
    assert [p][1..] == [];
  }

  lemma RemoveBytes(b: seq<byte>, last: nat, ps: seq<Pair>, key: Text)
    requires last <= |b| && b[..last] == Flatten(ps) && Find(ps, key) < |ps|
    ensures var n := Find(ps, key); var at, v := ValueOffset(ps, n), ps[n].1;
            var from, to := at - |key| - 1, at + |v| + 1;
            && 0 <= from <= to <= last
            && Overwrite(b, from, b[to..last])[..last - (to - from)] == Flatten(Remove(ps, key))
  {
    hide Flatten;
    var n := Find(ps, key);
    var v, pre, post := ps[n].1, Flatten(ps[..n]), Flatten(ps[n + 1..]);
    FlattenSplit(ps, n);
    RemoveAt(ps, key);
    FlattenConcat(ps[..n], ps[n + 1..]);
    var from, to := |pre|, |pre| + |key| + 1 + |v| + 1;
    assert b[to..last] == b[..last][to..] == post;
    assert b[..from] == b[..last][..from] == pre;
  }

  lemma RemoveAbsent(ps: seq<Pair>, key: Text)
    requires Find(ps, key) == |ps|
    ensures Remove(ps, key) == ps
  {
    RemoveAt(ps, key);
  }

  /** Where pair `n` starts, and where its value starts. */
  ghost function Offset(ps: seq<Pair>, n: nat): nat
    requires n <= |ps|
  {
    |Flatten(ps[..n])|
  }

  ghost function ValueOffset(ps: seq<Pair>, n: nat): nat
    requires n <= |ps|
  {
    if n < |ps| then Offset(ps, n) + |ps[n].0| + 1 else Offset(ps, n)
  }

  lemma OffsetStart(ps: seq<Pair>)
    ensures Offset(ps, 0) == 0
  {
  }

  lemma OffsetEnd(ps: seq<Pair>)
    ensures Offset(ps, |ps|) == |Flatten(ps)|
  {
    assert ps[..|ps|] == ps;
  }

  lemma OffsetNext(ps: seq<Pair>, n: nat)
    requires n < |ps|
    ensures Offset(ps, n + 1) == Offset(ps, n) + |ps[n].0| + 1 + |ps[n].1| + 1
  {
    assert ps[..n + 1] == ps[..n] + [ps[n]];
    FlattenConcat(ps[..n], [ps[n]]);
    assert Flatten([ps[n]]) == PairBytes(ps[n]) + [];
  }

  lemma {:induction false} OffsetGrows(ps: seq<Pair>, n: nat)
    requires n <= |ps|
    ensures Offset(ps, n) <= |Flatten(ps)|
    ensures n < |ps| ==> Offset(ps, n) < |Flatten(ps)|
  {
    if n < |ps| {
      FlattenSplit(ps, n);
    } else {
      OffsetEnd(ps);
    }
  }

  lemma PairStored(b: seq<byte>, last: nat, ps: seq<Pair>, n: nat)
    requires last <= |b| && b[..last] == Flatten(ps) && WellFormed(ps) && n < |ps|
    ensures var p, k, v := Offset(ps, n), ps[n].0, ps[n].1;
            && p + |k| + 1 + |v| + 1 <= last && TextAt(b, p) == k && (b[p] == 0 <==> k == []) && TextAt(b, p + |k| + 1) == v
  {
    hide Flatten;
    FlattenSplit(ps, n);
    var p, k, v := Offset(ps, n), ps[n].0, ps[n].1;
    var post := Flatten(ps[n + 1..]);
    assert Stored(b, 0, Flatten(ps)) by { assert b[0..last] == b[..last]; }
    StoredConcat(b, 0, Flatten(ps[..n]), PairBytes(ps[n]) + post);
    StoredConcat(b, p, PairBytes(ps[n]), post);
    StoredConcat(b, p, k + [0], v + [0]);
    TextStored(b, p, k);
    TextStored(b, p + |k| + 1, v);
    StoredConcat(b, p, k, [0]);
    if k != [] { assert b[p] == b[p..p + |k|][0]; }
  }
}
