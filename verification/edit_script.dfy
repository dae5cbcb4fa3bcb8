/** Edit scripts: the greedy comparison of two lists with a lookahead of six, and what it guarantees. */
module EditScripts {
  import opened Wrappers

  datatype Op<T> = Keep(line: T) | Add(line: T) | Drop(line: T)

  /** How far the comparison looks ahead in the old list. */
  const AHEAD: nat := 6

  /** The part of `lines` that a lookahead from `start` sees. */
  function Ahead<T>(lines: seq<T>, start: nat, max: nat): seq<T>
    requires start <= |lines|
  {
    if start + max <= |lines| then lines[start..start + max] else lines[start..]
  }

  /** The edit script from one list to another. */
  function Script<T(==)>(src: seq<T>, dst: seq<T>): seq<Op<T>>
    decreases |src| + |dst|
  {
    if src == [] && dst == [] then []
    else if src != [] && dst != [] && src[0] == dst[0] then [Keep(src[0])] + Script(src[1..], dst[1..])
    else if dst != [] && dst[0] !in Ahead(src, 0, AHEAD) then [Add(dst[0])] + Script(src, dst[1..])
    else if src != [] then [Drop(src[0])] + Script(src[1..], dst)
    else assert false; []
  }

  /** The list a script reads. */
  function Before<T>(ops: seq<Op<T>>): seq<T> {
    if ops == [] then []
    else (if ops[0].Add? then [] else [ops[0].line]) + Before(ops[1..])
  }

  /** The list a script writes. */
  function After<T>(ops: seq<Op<T>>): seq<T> {
    if ops == [] then []
    else (if ops[0].Drop? then [] else [ops[0].line]) + After(ops[1..])
  }

  function Additions<T>(ops: seq<Op<T>>): nat {
    if ops == [] then 0 else (if ops[0].Add? then 1 else 0) + Additions(ops[1..])
  }

  function Removals<T>(ops: seq<Op<T>>): nat {
    if ops == [] then 0 else (if ops[0].Drop? then 1 else 0) + Removals(ops[1..])
  }

  /** Runs a script on a list; context and removed lines must be there. */
  function Apply<T(==)>(ops: seq<Op<T>>, lines: seq<T>): Option<seq<T>>
    decreases |ops|
  {
    if ops == [] then (if lines == [] then Some([]) else None)
    else if ops[0].Add? then Prepend(ops[0].line, Apply(ops[1..], lines))
    else if lines == [] || lines[0] != ops[0].line then None
    else if ops[0].Keep? then Prepend(ops[0].line, Apply(ops[1..], lines[1..]))
    else Apply(ops[1..], lines[1..])
  }

  function Prepend<T>(x: T, r: Option<seq<T>>): Option<seq<T>> {
    match r
    case None => None
    case Some(xs) => Some([x] + xs)
  }

  /** A script applies to exactly the list it reads, and yields the list it writes. */
  lemma {:induction false} AppliesIff<T>(ops: seq<Op<T>>, lines: seq<T>)
    ensures Apply(ops, lines) == if lines == Before(ops) then Some(After(ops)) else None
  {
    if ops != [] {
      if ops[0].Add? {
        AppliesIff(ops[1..], lines);
      } else if lines != [] {
        AppliesIff(ops[1..], lines[1..]);
        assert lines == [lines[0]] + lines[1..];
        assert ops[0].Drop? ==> After(ops) == After(ops[1..]);
        if lines == Before(ops) {
          assert lines[0] == ops[0].line && lines[1..] == Before(ops[1..]);
        }
      }
    }
  }

  lemma FirstOp<T>(op: Op<T>, ops: seq<Op<T>>)
    ensures Before([op] + ops) == (if op.Add? then [] else [op.line]) + Before(ops)
    ensures After([op] + ops) == (if op.Drop? then [] else [op.line]) + After(ops)
  {
    assert ([op] + ops)[1..] == ops;
  }

  /** What is left of the two lists after a script's first operation. */
  lemma ScriptRest<T>(src: seq<T>, dst: seq<T>)
    requires src != [] || dst != []
    ensures var ops := Script(src, dst);
      && ops != []
      && (!ops[0].Add? ==> src != [] && ops[0].line == src[0])
      && (!ops[0].Drop? ==> dst != [] && ops[0].line == dst[0])
      && ops[1..] == Script(if ops[0].Add? then src else src[1..], if ops[0].Drop? then dst else dst[1..])
  {
    if src != [] && dst != [] && src[0] == dst[0] {
      assert ([Keep(src[0])] + Script(src[1..], dst[1..]))[1..] == Script(src[1..], dst[1..]);
    } else if dst != [] && dst[0] !in Ahead(src, 0, AHEAD) {
      assert ([Add(dst[0])] + Script(src, dst[1..]))[1..] == Script(src, dst[1..]);
    } else {
      assert ([Drop(src[0])] + Script(src[1..], dst))[1..] == Script(src[1..], dst);
    }
  }

  /** Both lists can be read back from the script. */
  lemma {:induction false} ScriptRecovers<T>(src: seq<T>, dst: seq<T>)
    ensures Before(Script(src, dst)) == src && After(Script(src, dst)) == dst
    decreases |src| + |dst|
  {
    if src != [] || dst != [] {
      var ops := Script(src, dst);
      ScriptRest(src, dst);
      hide Script, Before, After;
      var rest, more := if ops[0].Add? then src else src[1..], if ops[0].Drop? then dst else dst[1..];
      ScriptRecovers(rest, more);
      FirstOp(ops[0], ops[1..]);
      assert ops == [ops[0]] + ops[1..];
      assert src == (if ops[0].Add? then [] else [src[0]]) + rest;
      assert dst == (if ops[0].Drop? then [] else [dst[0]]) + more;
    }
  }

  /** The script transforms the one list into the other, and refuses every third list. */
  lemma ScriptApplies<T>(src: seq<T>, dst: seq<T>, lines: seq<T>)
    ensures Apply(Script(src, dst), lines) == if lines == src then Some(dst) else None
  {
    ScriptRecovers(src, dst);
    AppliesIff(Script(src, dst), lines);
  }

  lemma {:induction false} SameSize<T>(ops: seq<Op<T>>)
    ensures |Before(ops)| + Additions(ops) == |After(ops)| + Removals(ops)
    ensures Additions(ops) + Removals(ops) == 0 ==> Before(ops) == After(ops)
  {
    if ops != [] {
      SameSize(ops[1..]);
    }
  }

  lemma {:induction false} KeepsOnly<T>(lines: seq<T>)
    ensures Additions(Script(lines, lines)) + Removals(Script(lines, lines)) == 0
  {
    if lines != [] {
      KeepsOnly(lines[1..]);
    }
  }

  /** There are no changes exactly when the lists are equal; the counts explain the change of length. */
  lemma {:induction false} NoChangesIff<T>(src: seq<T>, dst: seq<T>)
    ensures var ops := Script(src, dst);
      && (Additions(ops) + Removals(ops) == 0 <==> src == dst)
      && |src| + Additions(ops) == |dst| + Removals(ops)
  {
    ScriptRecovers(src, dst);
    SameSize(Script(src, dst));
    if src == dst {
      KeepsOnly(src);
    }
  }

  // ----- the shape of a script

  /** Cursors in the two lists when operation k is emitted. */
  function OldCursor<T>(ops: seq<Op<T>>, k: nat): nat
    requires k <= |ops|
  {
    |Before(ops[..k])|
  }

  function NewCursor<T>(ops: seq<Op<T>>, k: nat): nat
    requires k <= |ops|
  {
    |After(ops[..k])|
  }

  lemma CursorsShift<T>(ops: seq<Op<T>>, k: nat)
    requires 0 < k <= |ops|
    ensures OldCursor(ops, k) == OldCursor(ops[1..], k - 1) + if ops[0].Add? then 0 else 1
    ensures NewCursor(ops, k) == NewCursor(ops[1..], k - 1) + if ops[0].Drop? then 0 else 1
  {
    hide Before, After;
    FirstOp(ops[0], ops[1..][..k - 1]);
    assert ops[..k] == [ops[0]] + ops[1..][..k - 1];
  }

  lemma SliceShift<T>(list: seq<T>, i: nat, d: nat)
    requires d + i <= |list|
    ensures list[d..][i..] == list[d + i..]
  {
  }

  /** From operation k on, the script is the script of what lies beyond the cursors. */
  lemma {:induction false} ScriptSuffix<T>(src: seq<T>, dst: seq<T>, k: nat)
    requires k <= |Script(src, dst)|
    ensures var ops := Script(src, dst); var i, j := OldCursor(ops, k), NewCursor(ops, k);
      i <= |src| && j <= |dst| && ops[k..] == Script(src[i..], dst[j..])
    decreases |src| + |dst|
  {
    var ops := Script(src, dst);
    if k > 0 {
      ScriptRest(src, dst);
      hide Script, OldCursor, NewCursor;
      var a, b := if ops[0].Add? then 0 else 1, if ops[0].Drop? then 0 else 1;
      assert ops[1..] == Script(src[a..], dst[b..]);
      ScriptSuffix(src[a..], dst[b..], k - 1);
      var i, j := OldCursor(ops[1..], k - 1), NewCursor(ops[1..], k - 1);
      CursorsShift(ops, k);
      SliceShift(src, i, a);
      SliceShift(dst, j, b);
      SliceShift(ops, k - 1, 1);
    }
  }

  lemma AheadFrom<T>(lines: seq<T>, i: nat)
    requires i <= |lines|
    ensures Ahead(lines[i..], 0, AHEAD) == Ahead(lines, i, AHEAD)
  {
  }

  /** A new line is added exactly when it is absent from the next six old lines at the cursor, kept exactly
      when it is the old line at the cursor, and otherwise the old line is dropped. */
  lemma ChoiceAtCursors<T>(src: seq<T>, dst: seq<T>, k: nat)
    requires k < |Script(src, dst)|
    ensures var ops := Script(src, dst); var i, j := OldCursor(ops, k), NewCursor(ops, k);
      && i <= |src| && j <= |dst|
      && (ops[k].Add? <==> j < |dst| && dst[j] !in Ahead(src, i, AHEAD))
      && (ops[k].Keep? <==> i < |src| && j < |dst| && src[i] == dst[j])
      && (if ops[k].Add? then ops[k].line == dst[j] else i < |src| && ops[k].line == src[i])
  {
    var ops := Script(src, dst);
    ScriptSuffix(src, dst, k);
    var i, j := OldCursor(ops, k), NewCursor(ops, k);
    assert ops[k] == ops[k..][0];
    AheadFrom(src, i);
    if i < |src| {
      assert src[i] in Ahead(src, i, AHEAD) by {
        assert Ahead(src, i, AHEAD)[0] == src[i];
      }
    }
  }

  /** Up to the place where the next new line is found, old lines are dropped. */
  lemma {:induction false} DropsUpTo<T>(src: seq<T>, dst: seq<T>, at: nat)
    requires at < |src| && at < AHEAD && dst != [] && src[at] == dst[0]
    requires forall i :: 0 <= i < at ==> src[i] != dst[0]
    ensures at < |Script(src, dst)| && Script(src, dst)[at].Keep?
    ensures forall i :: 0 <= i < at ==> Script(src, dst)[i].Drop?
  {
    if at > 0 {
      assert Ahead(src, 0, AHEAD)[at] == dst[0];
      DropsUpTo(src[1..], dst, at - 1);
      var ops := Script(src[1..], dst);
      assert Script(src, dst) == [Drop(src[0])] + ops;
      forall i | 0 <= i < at ensures ([Drop(src[0])] + ops)[i].Drop? {
        assert i > 0 ==> ([Drop(src[0])] + ops)[i] == ops[i - 1];
      }
    }
  }

  lemma {:induction false} DropsAll<T>(src: seq<T>, i: nat)
    requires i < |Script(src, [])|
    ensures Script(src, [])[i].Drop?
  {
    if i > 0 {
      DropsAll(src[1..], i - 1);
    }
  }

  lemma {:induction false} FirstAt<T>(lines: seq<T>, x: T) returns (at: nat)
    requires x in lines
    ensures at < |lines| && lines[at] == x && forall i :: 0 <= i < at ==> lines[i] != x
  {
    if lines[0] == x {
      at := 0;
    } else {
      at := FirstAt(lines[1..], x);
      at := at + 1;
    }
  }

  /** Operations a to b - 1 are a maximal run of removals. */
  ghost predicate DropRun<T>(ops: seq<Op<T>>, a: nat, b: nat) {
    && a < b <= |ops|
    && (forall k :: a <= k < b ==> ops[k].Drop?)
    && (a > 0 ==> !ops[a - 1].Drop?)
    && (b < |ops| ==> !ops[b].Drop?)
  }

  /** The leading removals of a script. */
  lemma LeadingDrops<T>(src: seq<T>, dst: seq<T>, n: nat)
    requires DropRun(Script(src, dst), 0, n)
    ensures var ops := Script(src, dst);
      (n < AHEAD && n < |ops| && ops[n].Keep?) || (n == |ops| && dst == [])
  {
    var ops := Script(src, dst);
    if dst == [] {
      if n < |ops| {
        DropsAll(src, n);
      }
    } else {
      assert ops[0].Drop?;
      var ahead := Ahead(src, 0, AHEAD);
      var at := FirstAt(ahead, dst[0]);
      hide Script;
      assert forall k :: 0 <= k < |ahead| ==> ahead[k] == src[k];
      DropsUpTo(src, dst, at);
      assert at == n;
    }
  }

  lemma DropRunShift<T>(ops: seq<Op<T>>, a: nat, b: nat)
    requires DropRun(ops, a, b)
    ensures DropRun(ops[a..], 0, b - a) && |ops[a..]| == |ops| - a && (b < |ops| ==> ops[a..][b - a] == ops[b])
  {
    assert forall k :: 0 <= k < |ops| - a ==> ops[a..][k] == ops[a + k];
  }

  /** A maximal run of removals is short and followed by context at once, or it is the tail of the script
      after all new lines are consumed. */
  lemma DropRunShape<T>(src: seq<T>, dst: seq<T>, a: nat, b: nat)
    requires DropRun(Script(src, dst), a, b)
    ensures var ops := Script(src, dst);
      || (b - a < AHEAD && b < |ops| && ops[b].Keep?)
      || (b == |ops| && NewCursor(ops, a) == |dst|)
  {
    hide Script, OldCursor, NewCursor, DropRun;
    var ops := Script(src, dst);
    DropRunBounds(ops, a, b);
    ScriptSuffix(src, dst, a);
    DropRunShift(ops, a, b);
    LeadingDrops(src[OldCursor(ops, a)..], dst[NewCursor(ops, a)..], b - a);
  }

  lemma DropRunBounds<T>(ops: seq<Op<T>>, a: nat, b: nat)
    requires DropRun(ops, a, b)
    ensures a < b <= |ops|
  {
  }
}
