/** Log rotation on values: file 0 is the current log, file i the one rolled i rotations ago. */
module LogModel {
  import opened Basics

  type File = seq<string>

  datatype State = State(files: seq<File>, count: nat)

  /** A log as it is found at start: files without a gap, the lines of the current one counted. */
  predicate Started(s: State, maxRoll: int) {
    && s.files != [] && (|s.files| == 1 || |s.files| <= maxRoll + 1)
    && s.count == |s.files[0]|
  }

  /** All rolled files move on by one, the oldest falls out, a new current file begins.  Without
      room for a rolled file the current one is just opened again. */
  function Rotated(files: seq<File>, maxRoll: int): seq<File> {
    if maxRoll < 1 then files
    else
      var all := [[]] + files;
      if |all| <= maxRoll + 1 then all else all[..maxRoll + 1]
  }

  predicate RotationDue(s: State, maxLines: int) {
    maxLines > 0 && s.count >= maxLines
  }

  function Write(s: State, line: string, maxLines: int, maxRoll: int): State
    requires s.files != []
  {
    var files := if RotationDue(s, maxLines) then Rotated(s.files, maxRoll) else s.files;
    var count := if RotationDue(s, maxLines) then 0 else s.count;
    State(files[0 := files[0] + [line]], count + 1)
  }

  function Run(s: State, lines: seq<string>, maxLines: int, maxRoll: int): (r: State)
    requires s.files != []
    ensures r.files != []
    decreases |lines|
  {
    if lines == [] then s else Run(Write(s, lines[0], maxLines, maxRoll), lines[1..], maxLines, maxRoll)
  }

  function Rotations(s: State, lines: seq<string>, maxLines: int, maxRoll: int): nat
    requires s.files != []
    decreases |lines|
  {
    if lines == [] then 0
    else
      (if RotationDue(s, maxLines) then 1 else 0)
      + Rotations(Write(s, lines[0], maxLines, maxRoll), lines[1..], maxLines, maxRoll)
  }

  /** Everything still on disk, oldest line first. */
  function Retained(files: seq<File>): seq<string> {
    if files == [] then [] else Retained(files[1..]) + files[0]
  }

  predicate IsSuffix(a: seq<string>, b: seq<string>) {
    |a| <= |b| && b[|b| - |a|..] == a
  }

  lemma {:induction false} RetainedDrop(files: seq<File>, n: nat)
    requires n <= |files|
    ensures Retained(files) == Retained(files[n..]) + Retained(files[..n])
  {
    if n == 0 {
      assert files[n..] == files;
    } else {
      RetainedDrop(files[1..], n - 1);
      assert files[1..][n - 1..] == files[n..] && files[1..][..n - 1] == files[..n][1..];
    }
  }

  lemma SuffixTrans(a: seq<string>, b: seq<string>, c: seq<string>)
    requires IsSuffix(a, b) && IsSuffix(b, c)
    ensures IsSuffix(a, c)
  {
    assert c[|c| - |a|..] == b[|b| - |a|..];
  }

  lemma SuffixAppend(a: seq<string>, b: seq<string>, x: seq<string>)
    requires IsSuffix(a, b)
    ensures IsSuffix(a + x, b + x)
  {
    assert (b + x)[|b| - |a|..] == b[|b| - |a|..] + x;
  }

  lemma RotationKeepsSuffix(files: seq<File>, maxRoll: int)
    requires maxRoll >= 1 && files != []
    ensures IsSuffix(Retained(Rotated(files, maxRoll)), Retained(files))
    ensures |files| <= maxRoll ==> Retained(Rotated(files, maxRoll)) == Retained(files)
  {
    var all, n := [[]] + files, maxRoll + 1;
    var whole, kept := Retained(files), Retained(Rotated(files, maxRoll));
    RetainedNew(files);
    if |all| <= n {
      assert Rotated(files, maxRoll) == all && kept == whole;
      SuffixOfConcat([], whole);
      assert [] + whole == whole;
    } else {
      assert Rotated(files, maxRoll) == all[..n];
      DropOldest(all, n);
    }
  }

  lemma DropOldest(all: seq<File>, n: nat)
    requires n <= |all|
    ensures IsSuffix(Retained(all[..n]), Retained(all))
  {
    RetainedDrop(all, n);
    SuffixOfConcat(Retained(all[n..]), Retained(all[..n]));
  }

  lemma RetainedNew(files: seq<File>)
    ensures Retained([[]] + files) == Retained(files)
  {
    assert ([[]] + files)[1..] == files && Retained(files) + [] == Retained(files);
  }

  lemma SuffixOfConcat(a: seq<string>, b: seq<string>)
    ensures IsSuffix(b, a + b) && IsSuffix(b, b)
  {
  }

  lemma WriteAppends(files: seq<File>, line: string)
    requires files != []
    ensures Retained(files[0 := files[0] + [line]]) == Retained(files) + [line]
  {
    var g := files[0 := files[0] + [line]];
    assert g[1..] == files[1..];
    assert Retained(files[1..]) + (files[0] + [line]) == Retained(files[1..]) + files[0] + [line];
  }

  /** One write loses nothing but the oldest file, and that only when all rolls are taken. */
  lemma WriteKeeps(s: State, line: string, maxLines: int, maxRoll: int)
    requires maxRoll >= 1 && s.files != []
    ensures IsSuffix(Retained(Write(s, line, maxLines, maxRoll).files), Retained(s.files) + [line])
    ensures !RotationDue(s, maxLines) || |s.files| <= maxRoll ==>
              Retained(Write(s, line, maxLines, maxRoll).files) == Retained(s.files) + [line]
  {
    var files := if RotationDue(s, maxLines) then Rotated(s.files, maxRoll) else s.files;
    RotationKeepsSuffix(s.files, maxRoll);
    WriteAppends(files, line);
    SuffixAppend(Retained(files), Retained(s.files), [line]);
  }

  lemma ChainSuffix(t: seq<string>, u: seq<string>, s: seq<string>, lines: seq<string>)
    requires lines != [] && IsSuffix(t, u + lines[1..]) && IsSuffix(u, s + [lines[0]])
    ensures IsSuffix(t, s + lines)
  {
    assert s + [lines[0]] + lines[1..] == s + lines;
    SuffixAppend(u, s + [lines[0]], lines[1..]);
    SuffixTrans(t, u + lines[1..], s + lines);
  }

  lemma WriteFileCount(s: State, line: string, maxLines: int, maxRoll: int)
    requires maxRoll >= 1 && s.files != [] && |s.files| <= maxRoll + 1
    ensures |Write(s, line, maxLines, maxRoll).files| ==
            if RotationDue(s, maxLines) then Min(|s.files| + 1, maxRoll + 1) else |s.files|
  {
  }

  /** Each rotation adds a file until all rolls are taken. */
  lemma {:induction false} RunFileCount(s: State, lines: seq<string>, maxLines: int, maxRoll: int)
    requires maxRoll >= 1 && s.files != [] && |s.files| <= maxRoll + 1
    ensures |Run(s, lines, maxLines, maxRoll).files|
         == Min(|s.files| + Rotations(s, lines, maxLines, maxRoll), maxRoll + 1)
    decreases |lines|
  {
    if lines != [] {
      WriteFileCount(s, lines[0], maxLines, maxRoll);
      RunFileCount(Write(s, lines[0], maxLines, maxRoll), lines[1..], maxLines, maxRoll);
    }
  }

  /** Over a whole run the retained lines are the newest ones: a suffix of all lines. */
  lemma {:induction false} RunRetainsSuffix(s: State, lines: seq<string>, maxLines: int, maxRoll: int)
    requires maxRoll >= 1 && s.files != [] && |s.files| <= maxRoll + 1
    ensures IsSuffix(Retained(Run(s, lines, maxLines, maxRoll).files), Retained(s.files) + lines)
    decreases |lines|
  {
    if lines == [] {
      assert Retained(s.files) + lines == Retained(s.files);
    } else {
      var u := Write(s, lines[0], maxLines, maxRoll);
      WriteKeeps(s, lines[0], maxLines, maxRoll);
      WriteFileCount(s, lines[0], maxLines, maxRoll);
      RunRetainsSuffix(u, lines[1..], maxLines, maxRoll);
      ChainSuffix(Retained(Run(u, lines[1..], maxLines, maxRoll).files), Retained(u.files), Retained(s.files), lines);
    }
  }

  /** Nothing is lost while the rolled files have room. */
  lemma {:induction false} RunRetainsAll(s: State, lines: seq<string>, maxLines: int, maxRoll: int)
    requires maxRoll >= 1 && s.files != []
    requires |s.files| + Rotations(s, lines, maxLines, maxRoll) <= maxRoll + 1
    ensures Retained(Run(s, lines, maxLines, maxRoll).files) == Retained(s.files) + lines
    decreases |lines|
  {
    if lines == [] {
      assert Retained(s.files) + lines == Retained(s.files);
    } else {
      var u := Write(s, lines[0], maxLines, maxRoll);
      WriteKeeps(s, lines[0], maxLines, maxRoll);
      WriteFileCount(s, lines[0], maxLines, maxRoll);
      RunRetainsAll(u, lines[1..], maxLines, maxRoll);
      assert Retained(s.files) + [lines[0]] + lines[1..] == Retained(s.files) + lines;
    }
  }

  /** The newest n rolled files are full. */
  predicate Full(files: seq<File>, n: nat, maxLines: int) {
    forall i :: 1 <= i <= n && i < |files| ==> |files[i]| == maxLines
  }

  lemma WriteFills(s: State, line: string, maxLines: int, maxRoll: int, n: nat)
    requires maxRoll >= 1 && maxLines > 0 && s.files != []
    requires s.count == |s.files[0]| <= maxLines && Full(s.files, n, maxLines)
    ensures
      var t := Write(s, line, maxLines, maxRoll);
      && t.count == |t.files[0]| && 1 <= t.count <= maxLines
      && Full(t.files, if RotationDue(s, maxLines) then n + 1 else n, maxLines)
  {
  }

  lemma OneMore(n: nat, m: int)
    ensures (1 + n) * m == m + n * m
  {
  }

  /** Every file rolled in a run is full, and the current file never grows beyond the limit; so
      the line counts say how often the log was rotated. */
  lemma {:induction false} RunFills(s: State, lines: seq<string>, maxLines: int, maxRoll: int, n: nat)
    requires maxRoll >= 1 && maxLines > 0 && s.files != []
    requires s.count == |s.files[0]| <= maxLines && Full(s.files, n, maxLines)
    ensures
      var t := Run(s, lines, maxLines, maxRoll);
      var rot := Rotations(s, lines, maxLines, maxRoll);
      && t.count == |t.files[0]| <= maxLines
      && Full(t.files, n + rot, maxLines)
      && |s.files[0]| + |lines| == rot * maxLines + |t.files[0]|
    decreases |lines|
  {
    if lines != [] {
      WriteFills(s, lines[0], maxLines, maxRoll, n);
      var u := Write(s, lines[0], maxLines, maxRoll);
      RunFills(u, lines[1..], maxLines, maxRoll, if RotationDue(s, maxLines) then n + 1 else n);
      OneMore(Rotations(u, lines[1..], maxLines, maxRoll), maxLines);
    }
  }

  /** Without a limit nothing is ever rotated: all lines go to the current file. */
  lemma {:induction false} NoLimitNoRotation(s: State, lines: seq<string>, maxLines: int, maxRoll: int)
    requires maxLines <= 0 && s.files != []
    ensures
      var t := Run(s, lines, maxLines, maxRoll);
      t.files == s.files[0 := s.files[0] + lines] && t.count == s.count + |lines|
    ensures Rotations(s, lines, maxLines, maxRoll) == 0
    decreases |lines|
  {
    if lines == [] {
      assert s.files[0] + [] == s.files[0];
    } else {
      var u := Write(s, lines[0], maxLines, maxRoll);
      NoLimitNoRotation(u, lines[1..], maxLines, maxRoll);
      assert s.files[0] + [lines[0]] + lines[1..] == s.files[0] + lines;
    }
  }

  /** With one, a rotation is due exactly when the counter has reached it. */
  lemma RotationsOfOne(s: State, line: string, maxLines: int, maxRoll: int)
    requires s.files != []
    ensures Rotations(s, [line], maxLines, maxRoll) == if 0 < maxLines <= s.count then 1 else 0
    ensures Write(s, line, maxLines, maxRoll).count == if 0 < maxLines <= s.count then 1 else s.count + 1
  {
  }

  /** Without room for rolled files the current file keeps everything. */
  lemma {:induction false} NoRollKeepsAll(s: State, lines: seq<string>, maxLines: int, maxRoll: int)
    requires maxRoll < 1 && s.files != []
    ensures Run(s, lines, maxLines, maxRoll).files[0] == s.files[0] + lines
    decreases |lines|
  {
    if lines == [] {
      assert s.files[0] + lines == s.files[0];
    } else {
      NoRollKeepsAll(Write(s, lines[0], maxLines, maxRoll), lines[1..], maxLines, maxRoll);
      assert s.files[0] + [lines[0]] + lines[1..] == s.files[0] + lines;
    }
  }

  lemma {:induction false} NoRotationYet(s: State, lines: seq<string>, maxLines: int, maxRoll: int)
    requires s.files != [] && s.count + |lines| <= maxLines
    ensures Run(s, lines, maxLines, maxRoll).files[0] == s.files[0] + lines
    decreases |lines|
  {
    if lines == [] {
      assert s.files[0] + lines == s.files[0];
    } else {
      NoRotationYet(Write(s, lines[0], maxLines, maxRoll), lines[1..], maxLines, maxRoll);
      assert s.files[0] + [lines[0]] + lines[1..] == s.files[0] + lines;
    }
  }

  /** The limit on the current file holds over every run exactly when files may be rolled and
      the counter knows every line: not after reopening a log that is not empty. */
  lemma LimitHoldsIff(s: State, maxLines: int, maxRoll: int)
    requires maxLines > 0 && s.files != [] && s.count <= |s.files[0]| <= maxLines
    ensures (forall lines :: |Run(s, lines, maxLines, maxRoll).files[0]| <= maxLines)
            <==> maxRoll >= 1 && s.count == |s.files[0]|
  {
    if maxRoll < 1 {
      var lines := seq(maxLines + 1, _ => "");
      NoRollKeepsAll(s, lines, maxLines, maxRoll);
      assert |Run(s, lines, maxLines, maxRoll).files[0]| > maxLines;
    } else if s.count < |s.files[0]| {
      var lines := seq(maxLines - s.count, _ => "");
      NoRotationYet(s, lines, maxLines, maxRoll);
      assert |Run(s, lines, maxLines, maxRoll).files[0]| > maxLines;
    } else {
      forall lines
        ensures |Run(s, lines, maxLines, maxRoll).files[0]| <= maxLines
      {
        RunFills(s, lines, maxLines, maxRoll, 0);
      }
    }
  }
}
