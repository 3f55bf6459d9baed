/** The system log: a file system, an open handle and a line counter. */
module LogRotation {
  import opened LogModel

  /** The files of one log by roll number; 0 is the log itself, i the file with suffix .i. */
  type FileSystem = map<nat, File>

  ghost predicate Shows(fs: FileSystem, files: seq<File>) {
    && (forall i :: i in fs <==> 0 <= i < |files|)
    && forall i :: 0 <= i < |files| ==> fs[i] == files[i]
  }

  class Log {
    const maxLines: int
    const maxRoll: int
    var fs: FileSystem
    var isOpen: bool
    var lineCount: nat
    ghost var model: State

    ghost predicate Valid()
      reads this
    {
      && Shows(fs, model.files) && model.files != [] && lineCount == model.count
      && (|model.files| == 1 || |model.files| <= maxRoll + 1)
    }

    /** Opening a log counts the lines that are there. */
    constructor (lines: int, roll: int, found: FileSystem, ghost files: seq<File>)
      requires Shows(found, files) && (|files| <= 1 || |files| <= roll + 1)
      ensures Valid() && isOpen && maxLines == lines && maxRoll == roll
      ensures Started(model, maxRoll) && lineCount == |fs[0]| && model.files == if files == [] then [[]] else files
    {
      maxLines, maxRoll := lines, roll;
      var start := if 0 in found then found else found[0 := []];
      fs := start;
      isOpen := true;
      lineCount := |start[0]|;
      model := State(if files == [] then [[]] else files, |start[0]|);
    }

    method Rename(from: nat, to: nat)
      requires from != to
      modifies `fs
      ensures fs == if from in old(fs) then old(fs)[to := old(fs)[from]] - {from} else old(fs)
    {
      if from in fs {
        fs := fs[to := fs[from]] - {from};
      }
    }

    /** Shifts the rolled files upwards, from the oldest on. */
    method ShiftRolled()
      requires Valid() && maxRoll >= 1
      modifies `fs
      ensures 0 in fs && fs[0] == old(fs)[0] && 1 !in fs
      ensures forall j :: j >= 2 ==> (j in fs <==> j <= maxRoll && j - 1 in old(fs))
      ensures forall j :: j >= 2 && j in fs ==> fs[j] == old(fs)[j - 1]
    {
      ghost var m := fs;
      var i := maxRoll;
      while i >= 1
        invariant 0 <= i <= maxRoll && i + 1 !in fs
        invariant forall j :: 0 <= j <= i ==> (j in fs <==> j in m) && (j in fs ==> fs[j] == m[j])
        invariant forall j :: j >= i + 2 ==> (j in fs <==> j <= maxRoll && j - 1 in m)
        invariant forall j :: j >= i + 2 && j in fs ==> fs[j] == m[j - 1]
        decreases i
      {
        if i == maxRoll {
          fs := fs - {i};
        } else {
          Rename(i, i + 1);
        }
        i := i - 1;
      }
    }

    /** The handle is closed when the new file cannot be opened. */
    method Rotate(reopens: bool)
      requires Valid() && isOpen
      modifies this
      ensures isOpen == reopens
      ensures reopens ==> Valid() && model == State(Rotated(old(model).files, maxRoll), 0)
    {
      isOpen := false;
      ghost var m := fs;
      ghost var files := model.files;
      if maxRoll >= 1 {
        ShiftRolled();
        Rename(0, 1);
      }
      if reopens {
        if 0 !in fs {
          fs := fs[0 := []];
        }
        isOpen := true;
        RotatedShown(m, files, fs, maxRoll);
        model := State(Rotated(files, maxRoll), 0);
      }
      lineCount := 0;
    }

    /** Closing and opening again forgets the count. */
    method Reopen(reopens: bool)
      requires isOpen ==> Valid()
      modifies this
      ensures isOpen == (old(isOpen) && reopens) && fs == old(fs)
      ensures isOpen ==> Valid() && model == State(old(model).files, 0)
    {
      if isOpen {
        isOpen := reopens;
        if reopens {
          lineCount := 0;
          model := State(model.files, 0);
        }
      }
    }

    /** One line, after a rotation if one is due; a log that is closed stays silent. */
    method WriteSystem(line: string, reopens: bool)
      requires isOpen ==> Valid()
      modifies this
      ensures isOpen == (old(isOpen) && (RotationDue(old(model), maxLines) ==> reopens))
      ensures isOpen ==> Valid() && model == Write(old(model), line, maxLines, maxRoll)
      ensures !old(isOpen) ==> fs == old(fs)
    {
      if !isOpen {
        return;
      }
      if maxLines > 0 && lineCount >= maxLines {
        Rotate(reopens);
        if !isOpen {
          return;
        }
      }
      fs := fs[0 := fs[0] + [line]];
      model := State(model.files[0 := model.files[0] + [line]], model.count + 1);
      lineCount := lineCount + 1;
    }
  }

  lemma RotatedShown(m: FileSystem, files: seq<File>, fs: FileSystem, maxRoll: int)
    requires Shows(m, files) && files != [] && (|files| == 1 || |files| <= maxRoll + 1)
    requires maxRoll < 1 ==> fs == m
    requires maxRoll >= 1 ==>
               && 0 in fs && fs[0] == [] && 1 in fs && fs[1] == m[0]
               && (forall j :: j >= 2 ==> (j in fs <==> j <= maxRoll && j - 1 in m))
               && (forall j :: j >= 2 && j in fs ==> fs[j] == m[j - 1])
    ensures Shows(fs, Rotated(files, maxRoll))
    ensures |Rotated(files, maxRoll)| == 1 || |Rotated(files, maxRoll)| <= maxRoll + 1
  {
    var r := Rotated(files, maxRoll);
    if maxRoll >= 1 {
      forall j: nat
        ensures j in fs <==> j < |r|
        ensures j in fs ==> fs[j] == r[j]
      {
        if j >= 2 {
          assert j - 1 in m <==> j - 1 < |files|;
        }
      }
    }
  }
}
