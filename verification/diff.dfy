/** The textual diff: line splitting, the two-cursor loop, and reading the text back. */
module Diffs {
  import opened Names
  import opened Wrappers
  import opened Text
  import opened EditScripts

  type Lines = seq<string>

  /** The text with every "\r\n" replaced by "\n". */
  function UnixText(s: string): string {
    if s == "" then ""
    else if |s| >= 2 && s[0] == '\r' && s[1] == '\n' then "\n" + UnixText(s[2..])
    else [s[0]] + UnixText(s[1..])
  }

  function TrimNewline(s: string): string {
    if s != "" && s[|s| - 1] == '\n' then s[..|s| - 1] else s
  }

  /** What is left of a text once line endings are unified and one final newline is dropped. */
  function Normal(s: string): string {
    TrimNewline(UnixText(s))
  }

  function SplitLines(s: string): (lines: Lines)
    ensures forall i :: 0 <= i < |lines| ==> '\n' !in lines[i]
  {
    if Normal(s) == "" then [] else Split(Normal(s), '\n')
  }

  /** Two texts have the same lines exactly when they are equal up to that. */
  lemma SameLinesIff(s: string, t: string)
    ensures SplitLines(s) == SplitLines(t) <==> Normal(s) == Normal(t)
  {
    JoinSplit(Normal(s), '\n');
    JoinSplit(Normal(t), '\n');
  }

  // ----- line endings

  /** Lines with a line ending each: "\r\n" where `crlf` says so, else "\n". */
  function Ended(lines: Lines, crlf: seq<bool>): string
    requires |crlf| == |lines|
  {
    if lines == [] then ""
    else lines[0] + (if crlf[0] then "\r\n" else "\n") + Ended(lines[1..], crlf[1..])
  }

  ghost predicate Plain(lines: Lines) {
    forall i :: 0 <= i < |lines| ==> '\r' !in lines[i] && '\n' !in lines[i]
  }

  lemma {:induction false} UnixLine(line: string, rest: string, crlf: bool)
    requires '\r' !in line && '\n' !in line
    ensures UnixText(line + (if crlf then "\r\n" else "\n") + rest) == line + "\n" + UnixText(rest)
  {
    var text := line + (if crlf then "\r\n" else "\n") + rest;
    if line == "" {
      if crlf {
        assert text[2..] == rest;
      } else {
        assert text[1..] == rest;
      }
      assert line + "\n" + UnixText(rest) == "\n" + UnixText(rest);
    } else {
      UnixLine(line[1..], rest, crlf);
      assert text[1..] == line[1..] + (if crlf then "\r\n" else "\n") + rest;
      assert text[0] == line[0] && line[0] != '\r';
      assert [line[0]] + (line[1..] + "\n" + UnixText(rest)) == line + "\n" + UnixText(rest);
    }
  }

  lemma {:induction false} UnixEnded(lines: Lines, crlf: seq<bool>)
    requires |crlf| == |lines| && Plain(lines)
    ensures UnixText(Ended(lines, crlf)) == Ended(lines, seq(|lines|, _ => false))
  {
    if lines != [] {
      UnixEnded(lines[1..], crlf[1..]);
      UnixLine(lines[0], Ended(lines[1..], crlf[1..]), crlf[0]);
      assert seq(|lines|, _ => false)[1..] == seq(|lines| - 1, _ => false);
      assert lines[0] + (if crlf[0] then "\r\n" else "\n") + Ended(lines[1..], crlf[1..]) == Ended(lines, crlf);
    }
  }

  lemma {:induction false} EndedJoins(lines: Lines)
    requires lines != []
    ensures Ended(lines, seq(|lines|, _ => false)) == Join(lines, '\n') + "\n"
  {
    assert seq(|lines|, _ => false)[1..] == seq(|lines| - 1, _ => false);
    if |lines| == 1 {
      assert Ended(lines[1..], seq(|lines| - 1, _ => false)) == "";
      assert lines[0] + "\n" + "" == lines[0] + "\n";
    } else {
      EndedJoins(lines[1..]);
    }
  }

  /** The lines of a text are what was written, whichever ending each line has. */
  lemma EndingsRead(lines: Lines, crlf: seq<bool>)
    requires |crlf| == |lines| && Plain(lines) && lines != [""]
    ensures SplitLines(Ended(lines, crlf)) == lines
  {
    UnixEnded(lines, crlf);
    if lines != [] {
      EndedJoins(lines);
      var text := Join(lines, '\n');
      assert (text + "\n")[..|text|] == text;
      SplitJoin(lines, '\n');
      assert text == "" ==> lines == Split("", '\n') == [""];
    }
  }

  /** Whether `value` is among the `max` lines from `start` on. */
  method ContainsAhead(lines: Lines, start: nat, value: string, max: nat) returns (found: bool)
    requires start <= |lines|
    ensures found <==> value in Ahead(lines, start, max)
  {
    var end := start + max;
    if end > |lines| {
      end := |lines|;
    }
    var i := start;
    while i < end
      invariant start <= i <= end
      invariant value !in lines[start..i]
    {
      if lines[i] == value {
        assert Ahead(lines, start, max)[i - start] == value;
        return true;
      }
      assert lines[start..i + 1] == lines[start..i] + [lines[i]];
      i := i + 1;
    }
    return false;
  }

  // ----- text

  function OpText(op: Op<string>): string {
    match op
    case Keep(line) => " " + line
    case Add(line) => "+" + line
    case Drop(line) => "-" + line
  }

  function Body(ops: seq<Op<string>>): (lines: Lines)
    ensures |lines| == |ops| && forall i :: 0 <= i < |ops| ==> lines[i] == OpText(ops[i])
  {
    seq(|ops|, i requires 0 <= i < |ops| => OpText(ops[i]))
  }

  function DiffText(from: string, to: string, ops: seq<Op<string>>): string {
    Join(["--- " + from, "+++ " + to] + Body(ops), '\n') + "\n"
  }

  datatype DiffResult = DiffResult(target: Name, from: string, to: string, text: string, added: nat, removed: nat)
  datatype DiffError = Cancelled

  function DiffOf(target: Name, from: string, to: string, before: string, after: string): DiffResult {
    var ops := Script(SplitLines(before), SplitLines(after));
    DiffResult(target, from, to, DiffText(from, to, ops), Additions(ops), Removals(ops))
  }

  /** The additions and removals of a script that grows by one operation. */
  lemma {:induction false} CountsAppend(ops: seq<Op<string>>, op: Op<string>)
    ensures Additions(ops + [op]) == Additions(ops) + (if op.Add? then 1 else 0)
    ensures Removals(ops + [op]) == Removals(ops) + (if op.Drop? then 1 else 0)
  {
    if ops == [] {
      assert [op][1..] == [];
    } else {
      CountsAppend(ops[1..], op);
      assert (ops + [op])[1..] == ops[1..] + [op];
    }
  }

  /** What the script emits at a pair of cursors, and where the cursors move. */
  lemma NextOp(src: Lines, dst: Lines, i: nat, j: nat)
    requires i <= |src| && j <= |dst| && (i < |src| || j < |dst|)
    ensures var rest := Script(src[i..], dst[j..]);
      if i < |src| && j < |dst| && src[i] == dst[j] then rest == [Keep(src[i])] + Script(src[i + 1..], dst[j + 1..])
      else if j < |dst| && dst[j] !in Ahead(src, i, AHEAD) then rest == [Add(dst[j])] + Script(src[i..], dst[j + 1..])
      else i < |src| && rest == [Drop(src[i])] + Script(src[i + 1..], dst[j..])
  {
    AheadFrom(src, i);
  }

  /** The state of the loop: what is emitted, its lines and counters, and what the cursors leave. */
  ghost predicate Emitting(src: Lines, dst: Lines, done: seq<Op<string>>, i: nat, j: nat,
                           lines: Lines, added: nat, removed: nat)
    requires i <= |src| && j <= |dst|
  {
    && Script(src, dst) == done + Script(src[i..], dst[j..])
    && lines == Body(done) && added == Additions(done) && removed == Removals(done)
  }

  lemma Emitted(src: Lines, dst: Lines, done: seq<Op<string>>, i: nat, j: nat, lines: Lines, added: nat, removed: nat,
                op: Op<string>, i': nat, j': nat)
    requires i <= i' <= |src| && j <= j' <= |dst|
    requires Emitting(src, dst, done, i, j, lines, added, removed)
    requires Script(src[i..], dst[j..]) == [op] + Script(src[i'..], dst[j'..])
    ensures Emitting(src, dst, done + [op], i', j', lines + [OpText(op)],
                     if op.Add? then added + 1 else added, if op.Drop? then removed + 1 else removed)
  {
    hide Script, Additions, Removals;
    CountsAppend(done, op);
    assert Body(done + [op]) == Body(done) + [OpText(op)];
    assert done + ([op] + Script(src[i'..], dst[j'..])) == done + [op] + Script(src[i'..], dst[j'..]);
  }

  lemma AllEmitted(src: Lines, dst: Lines, done: seq<Op<string>>, lines: Lines, added: nat, removed: nat)
    requires Emitting(src, dst, done, |src|, |dst|, lines, added, removed)
    ensures var ops := Script(src, dst); lines == Body(ops) && added == Additions(ops) && removed == Removals(ops)
  {
    assert src[|src|..] == [] && dst[|dst|..] == [];
    assert done + [] == done;
  }

  /** The two-cursor loop. The branch that would emit nothing is never taken. */
  method Compare(src: Lines, dst: Lines) returns (lines: Lines, added: nat, removed: nat)
    ensures var ops := Script(src, dst); lines == Body(ops) && added == Additions(ops) && removed == Removals(ops)
  {
    lines, added, removed := [], 0, 0;
    var i, j := 0, 0;
    ghost var done: seq<Op<string>> := [];
    while i < |src| || j < |dst|
      invariant i <= |src| && j <= |dst|
      invariant Emitting(src, dst, done, i, j, lines, added, removed)
      decreases |src| - i + |dst| - j
    {
      var ahead := false;
      if j < |dst| {
        ahead := ContainsAhead(src, i, dst[j], AHEAD);
      }
      NextOp(src, dst, i, j);
      if i < |src| && j < |dst| && src[i] == dst[j] {
        Emitted(src, dst, done, i, j, lines, added, removed, Keep(src[i]), i + 1, j + 1);
        done := done + [Keep(src[i])];
        lines := lines + [" " + src[i]];
        i, j := i + 1, j + 1;
      } else if j < |dst| && (i >= |src| || !ahead) {
        Emitted(src, dst, done, i, j, lines, added, removed, Add(dst[j]), i, j + 1);
        done := done + [Add(dst[j])];
        lines := lines + ["+" + dst[j]];
        added := added + 1;
        j := j + 1;
      } else if i < |src| {
        Emitted(src, dst, done, i, j, lines, added, removed, Drop(src[i]), i + 1, j);
        done := done + [Drop(src[i])];
        lines := lines + ["-" + src[i]];
        removed := removed + 1;
        i := i + 1;
      } else {
        assert false;
      }
    }
    AllEmitted(src, dst, done, lines, added, removed);
  }

  method UnifiedDiff(cancelled: bool, target: Name, from: string, to: string, before: string, after: string)
    returns (r: Result<DiffResult, DiffError>)
    ensures r == if cancelled then Err(Cancelled) else Ok(DiffOf(target, from, to, before, after))
  {
    if cancelled {
      return Err(Cancelled);
    }
    var lines, added, removed := Compare(SplitLines(before), SplitLines(after));
    var text := Join(["--- " + from, "+++ " + to] + lines, '\n') + "\n";
    return Ok(DiffResult(target, from, to, text, added, removed));
  }

  // ----- reading the text back

  function ParseOp(line: string): Option<Op<string>> {
    if line == "" then None
    else if line[0] == ' ' then Some(Keep(line[1..]))
    else if line[0] == '+' then Some(Add(line[1..]))
    else if line[0] == '-' then Some(Drop(line[1..]))
    else None
  }

  function ParseBody(lines: Lines): Option<seq<Op<string>>> {
    if lines == [] then Some([])
    else
      match (ParseOp(lines[0]), ParseBody(lines[1..]))
      case (Some(op), Some(ops)) => Some([op] + ops)
      case _ => None
  }

  /** The operations in a diff text: the lines between the two header lines and the end. */
  function ParseDiff(text: string): Option<seq<Op<string>>> {
    var lines := Split(text, '\n');
    if |lines| < 3 then None else ParseBody(lines[2..|lines| - 1])
  }

  lemma OpParses(op: Op<string>)
    ensures ParseOp(OpText(op)) == Some(op)
  {
    assert OpText(op)[1..] == op.line;
  }

  lemma {:induction false} BodyParses(ops: seq<Op<string>>)
    ensures ParseBody(Body(ops)) == Some(ops)
  {
    if ops != [] {
      BodyParses(ops[1..]);
      assert Body(ops)[1..] == Body(ops[1..]);
      OpParses(ops[0]);
      assert [ops[0]] + ops[1..] == ops;
    }
  }

  lemma {:induction false} JoinEnds(parts: Lines)
    requires parts != []
    ensures Join(parts, '\n') + "\n" == Join(parts + [""], '\n')
  {
    if |parts| == 1 {
      assert (parts + [""])[1..] == [""];
    } else {
      JoinEnds(parts[1..]);
      assert (parts + [""])[1..] == parts[1..] + [""];
    }
  }

  ghost predicate Clean(lines: Lines) {
    forall i :: 0 <= i < |lines| ==> '\n' !in lines[i]
  }

  lemma {:induction false} ScriptClean(src: Lines, dst: Lines)
    requires Clean(src) && Clean(dst)
    ensures Clean(Body(Script(src, dst)))
    decreases |src| + |dst|
  {
    if src == [] && dst == [] {
    } else if src != [] && dst != [] && src[0] == dst[0] {
      ScriptClean(src[1..], dst[1..]);
    } else if dst != [] && dst[0] !in Ahead(src, 0, AHEAD) {
      ScriptClean(src, dst[1..]);
    } else {
      ScriptClean(src[1..], dst);
    }
  }

  lemma TextParses(from: string, to: string, ops: seq<Op<string>>)
    requires '\n' !in from && '\n' !in to && Clean(Body(ops))
    ensures ParseDiff(DiffText(from, to, ops)) == Some(ops)
  {
    var parts := ["--- " + from, "+++ " + to] + Body(ops);
    JoinEnds(parts);
    SplitJoin(parts + [""], '\n');
    assert (parts + [""])[2..|parts|] == Body(ops);
    BodyParses(ops);
  }

  /** Lines that start with a mark. */
  function Marked(lines: Lines, mark: char): nat {
    if lines == [] then 0 else (if lines[0] != "" && lines[0][0] == mark then 1 else 0) + Marked(lines[1..], mark)
  }

  lemma {:induction false} BodyMarks(ops: seq<Op<string>>)
    ensures Marked(Body(ops), '+') == Additions(ops) && Marked(Body(ops), '-') == Removals(ops)
  {
    if ops != [] {
      BodyMarks(ops[1..]);
      assert Body(ops)[1..] == Body(ops[1..]);
    }
  }

  /** For all contents, and revision names without a newline, both line lists can be read back from the text;
      applied to the old lines it gives the new ones. */
  lemma DiffReversible(target: Name, from: string, to: string, before: string, after: string)
    requires '\n' !in from && '\n' !in to
    ensures var ops := ParseDiff(DiffOf(target, from, to, before, after).text);
      && ops.Some? && Before(ops.value) == SplitLines(before) && After(ops.value) == SplitLines(after)
      && Apply(ops.value, SplitLines(before)) == Some(SplitLines(after))
  {
    var src, dst := SplitLines(before), SplitLines(after);
    ScriptClean(src, dst);
    TextParses(from, to, Script(src, dst));
    ScriptApplies(src, dst, src);
    ScriptRecovers(src, dst);
  }

  /** The counters are the numbers of marked lines after the header, and both are zero exactly when the texts
      are equal up to line endings and a final newline. */
  lemma DiffCounts(target: Name, from: string, to: string, before: string, after: string)
    requires '\n' !in from && '\n' !in to
    ensures var d := DiffOf(target, from, to, before, after); var lines := Split(d.text, '\n');
      && |lines| >= 3 && d.added == Marked(lines[2..], '+') && d.removed == Marked(lines[2..], '-')
      && (d.added + d.removed == 0 <==> Normal(before) == Normal(after))
  {
    var src, dst := SplitLines(before), SplitLines(after);
    var ops := Script(src, dst);
    ScriptClean(src, dst);
    var parts := ["--- " + from, "+++ " + to] + Body(ops);
    JoinEnds(parts);
    SplitJoin(parts + [""], '\n');
    assert (parts + [""])[2..] == Body(ops) + [""];
    MarkedEnds(Body(ops), '+');
    MarkedEnds(Body(ops), '-');
    BodyMarks(ops);
    NoChangesIff(src, dst);
    SameLinesIff(before, after);
  }

  lemma {:induction false} MarkedEnds(lines: Lines, mark: char)
    ensures Marked(lines + [""], mark) == Marked(lines, mark)
  {
    if lines == [] {
      assert (lines + [""])[1..] == [];
    } else {
      MarkedEnds(lines[1..], mark);
      assert (lines + [""])[1..] == lines[1..] + [""];
    }
  }

  /** Texts of the same lines have no changes between them, whichever line endings they use. */
  lemma EndingsAreNoChange(target: Name, from: string, to: string, lines: Lines, before: seq<bool>, after: seq<bool>)
    requires |before| == |after| == |lines| && Plain(lines)
    ensures var d := DiffOf(target, from, to, Ended(lines, before), Ended(lines, after));
      d.added == 0 && d.removed == 0
  {
    UnixEnded(lines, before);
    UnixEnded(lines, after);
    var text := SplitLines(Ended(lines, before));
    assert text == SplitLines(Ended(lines, after));
    NoChangesIff(text, text);
  }
}
