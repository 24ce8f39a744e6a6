/** `pr11task2.c`: threads overwrite one shared record, field by field, while `main` copies it
  out and compares it with the table it came from.

  Any number of writers, any table, any number of fields; every field is copied in a step of
  its own, and other threads may step in between.
 */
module EmployeeRecords {
  import opened Runs
  import opened Tally

  datatype Value = Number(n: int) | Chars(s: string)

  /** Field 0 is `number`; the others are `id`, the names, the department and the room. */
  type Record = seq<Value>

  datatype WriterPc = Test | Lock | Copy(j: nat) | Unlock | Stopped

  /** `main` between its copies (`Compare`), and after its last one. */
  datatype MainPc = MainLock | MainCopy(j: nat) | MainUnlock | Compare | Finished

  datatype Writer = Writer(source: nat, pc: WriterPc)

  datatype Holder = Nobody | Main | AWriter(w: nat)

  /** `snapshots` lists what `main` has copied out, `mismatches` counts failed comparisons. */
  datatype State = State(
    table: seq<Record>, shared: Record, mutex: Holder, writers: seq<Writer>, stop: bool,
    main: MainPc, eotd: Record, left: nat, snapshots: seq<Record>, mismatches: nat)

  datatype Who = MainThread | WriterThread(w: nat)

  /** Records have `fields` fields, and the number of a record is its place in the table. */
  ghost predicate Table(table: seq<Record>, fields: nat)
  {
    && 1 <= fields && table != []
    && forall i :: 0 <= i < |table| ==> |table[i]| == fields && table[i][0] == Number(i + 1)
  }

  ghost predicate Init(s: State)
  {
    && s.table != [] && Table(s.table, |s.eotd|) && s.shared == s.table[0]
    && s.mutex == Nobody && !s.stop && s.main == MainLock && s.snapshots == [] && s.mismatches == 0
    && forall w :: 0 <= w < |s.writers| ==> s.writers[w].source < |s.table| && s.writers[w].pc == Test
  }

  function SetWriter(s: State, w: nat, pc: WriterPc): State
    requires w < |s.writers|
  {
    s.(writers := s.writers[w := s.writers[w].(pc := pc)])
  }

  function Step(s: State, who: Who): Option<State>
  {
    match who
    case MainThread => MainStep(s)
    case WriterThread(w) => if w < |s.writers| then WriterStep(s, w) else None
  }

  function WriterStep(s: State, w: nat): Option<State>
    requires w < |s.writers|
  {
    match s.writers[w].pc
    case Test => Some(SetWriter(s, w, if s.stop then Stopped else Lock))
    case Lock => if s.mutex == Nobody then Some(SetWriter(s, w, Copy(0)).(mutex := AWriter(w))) else None
    case Copy(j) =>
      var source := s.writers[w].source;
      if source < |s.table| && j < |s.table[source]| && j < |s.shared|
      then Some(SetWriter(s, w, Copy(j + 1)).(shared := s.shared[j := s.table[source][j]]))
      else Some(SetWriter(s, w, Unlock))
    case Unlock => Some(SetWriter(s, w, Test).(mutex := Nobody))
    case Stopped => None
  }

  function MainStep(s: State): Option<State>
  {
    match s.main
    case MainLock =>
      if s.left == 0 then Some(s.(stop := true, main := Finished))
      else if s.mutex == Nobody then Some(s.(mutex := Main, main := MainCopy(0))) else None
    case MainCopy(j) =>
      if j < |s.shared| && j < |s.eotd|
      then Some(s.(eotd := s.eotd[j := s.shared[j]], main := MainCopy(j + 1)))
      else Some(s.(main := MainUnlock))
    case MainUnlock => Some(s.(mutex := Nobody, main := Compare))
    case Compare =>
      Some(s.(main := MainLock, left := if s.left > 0 then s.left - 1 else 0, snapshots := s.snapshots + [s.eotd],
              mismatches := s.mismatches + if Matches(s.eotd, s.table) then 0 else 1))
    case Finished => None
  }

  /** The comparisons of `main`: every field against the record that `number` points to. */
  predicate Matches(record: Record, table: seq<Record>)
  {
    && record != [] && record[0].Number? && 1 <= record[0].n <= |table|
    && var worker := table[record[0].n - 1];
       |worker| == |record| && forall k :: 1 <= k < |record| ==> record[k] == worker[k]
  }

  // ---------------------------------------------------------------- invariant

  ghost predicate IsRow(record: Record, table: seq<Record>)
  {
    exists r :: 0 <= r < |table| && record == table[r]
  }

  /** The first `j` fields have been copied. */
  ghost predicate SamePrefix(to: Record, from: Record, j: nat)
  {
    j <= |to| == |from| && to[..j] == from[..j]
  }

  ghost predicate WriterOk(s: State, w: nat)
    requires w < |s.writers|
  {
    && s.writers[w].source < |s.table|
    && (s.mutex == AWriter(w) <==> s.writers[w].pc.Copy? || s.writers[w].pc == Unlock)
    && (s.writers[w].pc.Copy? ==>
          SamePrefix(s.shared, s.table[s.writers[w].source], s.writers[w].pc.j))
    && (s.writers[w].pc == Unlock ==> s.shared == s.table[s.writers[w].source])
    && (s.writers[w].pc == Stopped ==> s.stop)
  }

  ghost predicate Copying(s: State)
  {
    s.mutex.AWriter? && s.mutex.w < |s.writers| && s.writers[s.mutex.w].pc.Copy?
  }

  ghost predicate MainOk(s: State)
  {
    && (s.mutex == Main <==> s.main.MainCopy? || s.main == MainUnlock)
    && match s.main
       case MainCopy(j) => SamePrefix(s.eotd, s.shared, j)
       case MainUnlock => IsRow(s.eotd, s.table) && s.eotd == s.shared
       case Compare => IsRow(s.eotd, s.table)
       case _ => true
  }

  /** The shared record is a row of the table whenever no writer is in the middle of a copy. */
  ghost predicate Inv(s: State)
  {
    && Table(s.table, |s.eotd|) && |s.shared| == |s.eotd|
    && (s.mutex.AWriter? ==> s.mutex.w < |s.writers|)
    && (forall w :: 0 <= w < |s.writers| ==> WriterOk(s, w))
    && (!Copying(s) ==> IsRow(s.shared, s.table))
    && MainOk(s)
    && s.mismatches == 0 && forall i :: 0 <= i < |s.snapshots| ==> IsRow(s.snapshots[i], s.table)
  }

  lemma RowsMatch(record: Record, table: seq<Record>, fields: nat)
    requires Table(table, fields) && IsRow(record, table)
    ensures Matches(record, table)
  {
  }

  lemma WriterKeepsInv(s: State, w: nat)
    requires Inv(s) && w < |s.writers| && WriterStep(s, w).Some?
    ensures Inv(WriterStep(s, w).value)
  {
    var s' := WriterStep(s, w).value;
    assert WriterOk(s, w);
    forall u | 0 <= u < |s'.writers|
      ensures WriterOk(s', u)
    {
      assert WriterOk(s, u);
    }
    if s.writers[w].pc.Copy? && s.writers[w].pc.j == |s.shared| {
      assert s.shared == s.table[s.writers[w].source];
    }
  }

  lemma MainKeepsInv(s: State)
    requires Inv(s) && MainStep(s).Some?
    ensures Inv(MainStep(s).value)
  {
    var s' := MainStep(s).value;
    forall u | 0 <= u < |s'.writers|
      ensures WriterOk(s', u)
    {
      assert WriterOk(s, u);
    }
    match s.main
    case MainCopy(j) =>
      if j == |s.shared| {
        assert s.eotd == s.shared;
      }
    case Compare => RowsMatch(s.eotd, s.table, |s.eotd|);
    case _ =>
  }

  ghost predicate Keeps(table: seq<Record>, s: State)
  {
    Inv(s) && s.table == table
  }

  /** In every iteration of every run the snapshot is one whole row of the table, and every
      comparison holds. */
  lemma {:induction false} NoTornSnapshots(s: State, schedule: seq<Who>)
    requires Init(s) && Exec(Step, s, schedule).Some?
    ensures var end := Exec(Step, s, schedule).value;
            && end.mismatches == 0
            && (forall i :: 0 <= i < |end.snapshots| ==>
                  IsRow(end.snapshots[i], s.table) && Matches(end.snapshots[i], s.table))
            && (end.main == MainUnlock ==> end.eotd == end.shared)
            && forall w :: 0 <= w < |end.writers| && end.writers[w].pc == Unlock ==>
                             end.writers[w].source < |s.table| && end.shared == s.table[end.writers[w].source]
  {
    var inv := (x: State) => Keeps(s.table, x);
    assert Inv(s);
    forall x, who | inv(x) && Step(x, who).Some?
      ensures inv(Step(x, who).value)
    {
      match who
      case MainThread => MainKeepsInv(x);
      case WriterThread(w) => WriterKeepsInv(x, w);
    }
    Invariant(Step, inv, s, schedule);
    var end := Exec(Step, s, schedule).value;
    forall i | 0 <= i < |end.snapshots|
      ensures Matches(end.snapshots[i], s.table)
    {
      RowsMatch(end.snapshots[i], s.table, |end.eotd|);
    }
    forall w | 0 <= w < |end.writers| && end.writers[w].pc == Unlock
      ensures end.writers[w].source < |s.table| && end.shared == s.table[end.writers[w].source]
    {
      assert WriterOk(end, w);
    }
  }

  /** The comparisons find out any record that is not the row it claims to be. */
  lemma MatchesIsRow(record: Record, table: seq<Record>, fields: nat)
    requires Table(table, fields) && |record| == fields && record[0].Number? && 1 <= record[0].n <= |table|
    ensures Matches(record, table) <==> record == table[record[0].n - 1]
  {
    var row := table[record[0].n - 1];
    if Matches(record, table) {
      forall k | 0 <= k < fields
        ensures record[k] == row[k]
      {
        assert k == 0 ==> record[0] == Number(record[0].n) == row[0];
      }
    }
  }

  /** Each comparison that fails is counted, whatever `main` has copied. */
  lemma ComparisonIsCounted(s: State)
    requires s.main == Compare
    ensures MainStep(s).Some?
    ensures MainStep(s).value.mismatches == s.mismatches + if Matches(s.eotd, s.table) then 0 else 1
    ensures MainStep(s).value.snapshots == s.snapshots + [s.eotd]
  {
  }

  // ---------------------------------------------------------------- what a writer does

  lemma {:induction false} CopyAlone(s: State, w: nat, j: nat)
    requires Inv(s) && w < |s.writers| && s.mutex == AWriter(w) && s.writers[w].pc == Copy(j)
    ensures s.writers[w].source < |s.table| && j <= |s.shared|
    ensures Alone(Step, WriterThread(w), s, SetWriter(s, w, Unlock).(shared := s.table[s.writers[w].source]))
    decreases |s.shared| - j
  {
    assert WriterOk(s, w);
    var next := WriterStep(s, w).value;
    var end := SetWriter(s, w, Unlock).(shared := s.table[s.writers[w].source]);
    assert Step(s, WriterThread(w)) == Some(next);
    if j < |s.shared| {
      WriterKeepsInv(s, w);
      CopyAlone(next, w, j + 1);
      assert SetWriter(next, w, Unlock).(shared := s.table[s.writers[w].source]) == end;
    } else {
      assert s.shared == s.table[s.writers[w].source];
      AloneStay(Step, WriterThread(w), end);
      assert next == end;
    }
    AloneStep(Step, WriterThread(w), s, next, end);
  }

  /** A writer that is not told to stop can, with the mutex free, make a whole copy in its own
      turns and come back to its test. */
  lemma {:induction false} WriterCopies(s: State, w: nat)
    requires Inv(s) && !s.stop && s.mutex == Nobody && w < |s.writers| && s.writers[w].pc == Test
    ensures s.writers[w].source < |s.table|
    ensures Alone(Step, WriterThread(w), s, s.(shared := s.table[s.writers[w].source]))
  {
    assert WriterOk(s, w);
    var atLock := SetWriter(s, w, Lock);
    var copying := SetWriter(s, w, Copy(0)).(mutex := AWriter(w));
    var copied := SetWriter(copying, w, Unlock).(shared := s.table[s.writers[w].source]);
    var end := s.(shared := s.table[s.writers[w].source]);
    WriterKeepsInv(s, w);
    assert WriterStep(s, w) == Some(atLock);
    assert WriterStep(atLock, w) == Some(copying) by {
      assert atLock.writers[w := atLock.writers[w].(pc := Copy(0))] == copying.writers;
    }
    WriterKeepsInv(atLock, w);
    CopyAlone(copying, w, 0);
    assert WriterStep(copied, w) == Some(end) by {
      assert copied.writers[w := copied.writers[w].(pc := Test)] == s.writers;
    }
    AloneStay(Step, WriterThread(w), end);
    AloneStep(Step, WriterThread(w), copied, end, end);
    AloneOn(Step, WriterThread(w), copying, copied, end);
    AloneStep(Step, WriterThread(w), atLock, copying, end);
    AloneStep(Step, WriterThread(w), s, atLock, end);
  }

  /** The steps a writer still takes once it has been told to stop. */
  function WriterLeft(s: State, w: nat): int
    requires w < |s.writers|
  {
    match s.writers[w].pc
    case Stopped => 0
    case Test => 1
    case Unlock => 2
    case Copy(j) => |s.shared| - j + 3
    case Lock => |s.shared| + 4
  }

  lemma StepWhenStopping(s: State, w: nat, who: Who)
    requires Inv(s) && s.stop && w < |s.writers| && Step(s, who).Some?
    ensures var s' := Step(s, who).value;
            && Inv(s') && s'.stop && |s'.writers| == |s.writers|
            && WriterLeft(s', w) == WriterLeft(s, w) - if who == WriterThread(w) then 1 else 0
  {
    assert WriterOk(s, w);
    match who
    case MainThread => MainKeepsInv(s);
    case WriterThread(u) => WriterKeepsInv(s, u);
  }

  /** Once told to stop, a writer stops: it has, exactly when it has taken the steps it had left,
      however the others come between. */
  lemma {:induction false} WritersStop(s: State, w: nat, schedule: seq<Who>)
    requires Inv(s) && s.stop && w < |s.writers| && Exec(Step, s, schedule).Some?
    ensures var end := Exec(Step, s, schedule).value;
            && w < |end.writers| && Copies(WriterThread(w), schedule) <= WriterLeft(s, w) <= |s.shared| + 4
            && (end.writers[w].pc == Stopped <==> Copies(WriterThread(w), schedule) == WriterLeft(s, w))
    decreases |schedule|
  {
    assert WriterOk(s, w);
    if schedule != [] {
      StepWhenStopping(s, w, schedule[0]);
      WritersStop(Step(s, schedule[0]).value, w, schedule[1..]);
    }
  }

  // ---------------------------------------------------------------- to the end

  /** The steps `main` has still to take, with `fields` fields. */
  function MainWork(fields: nat, s: State): int
  {
    match s.main
    case Finished => 0
    case MainLock => s.left * (fields + 4) + 1
    case MainCopy(j) => (s.left - 1) * (fields + 4) + fields - j + 4
    case MainUnlock => (s.left - 1) * (fields + 4) + 3
    case Compare => (s.left - 1) * (fields + 4) + 2
  }

  /** `main` has `total` iterations to make, and tells the writers to stop after the last. */
  ghost predicate OnCourse(table: seq<Record>, fields: nat, total: nat, s: State)
  {
    && Keeps(table, s) && |s.eotd| == fields && |s.snapshots| + s.left == total
    && (s.stop <==> s.main == Finished) && (s.main == Finished ==> s.left == 0)
    && (s.main != MainLock && s.main != Finished ==> s.left > 0)
  }

  lemma NextIteration(left: nat, fields: nat)
    requires left > 0
    ensures left * (fields + 4) == (left - 1) * (fields + 4) + fields + 4
  {
  }

  lemma MainStaysOnCourse(table: seq<Record>, fields: nat, total: nat, s: State)
    requires OnCourse(table, fields, total, s) && MainStep(s).Some?
    ensures OnCourse(table, fields, total, MainStep(s).value)
    ensures MainWork(fields, MainStep(s).value) == MainWork(fields, s) - 1
  {
    MainKeepsInv(s);
    if s.left > 0 {
      NextIteration(s.left, fields);
    }
  }

  lemma WriterStaysOnCourse(table: seq<Record>, fields: nat, total: nat, s: State, w: nat)
    requires OnCourse(table, fields, total, s) && w < |s.writers| && WriterStep(s, w).Some?
    ensures OnCourse(table, fields, total, WriterStep(s, w).value)
    ensures MainWork(fields, WriterStep(s, w).value) == MainWork(fields, s)
  {
    WriterKeepsInv(s, w);
  }

  lemma {:induction false} MainSteps(table: seq<Record>, fields: nat, total: nat, s: State, schedule: seq<Who>)
    requires OnCourse(table, fields, total, s) && Exec(Step, s, schedule).Some?
    ensures OnCourse(table, fields, total, Exec(Step, s, schedule).value)
    ensures Copies(MainThread, schedule) + MainWork(fields, Exec(Step, s, schedule).value) == MainWork(fields, s)
    decreases |schedule|
  {
    if schedule != [] {
      if schedule[0].MainThread? {
        MainStaysOnCourse(table, fields, total, s);
      } else {
        WriterStaysOnCourse(table, fields, total, s, schedule[0].w);
      }
      MainSteps(table, fields, total, Step(s, schedule[0]).value, schedule[1..]);
    }
  }

  /** In every run `main` has finished exactly when it has taken all the steps of its iterations,
      with one snapshot for each of them; and only then does a writer stop. */
  lemma {:induction false} FinishesWithEverySnapshot(s: State, schedule: seq<Who>)
    requires Init(s) && Exec(Step, s, schedule).Some?
    ensures var end := Exec(Step, s, schedule).value;
            && (end.main == Finished <==> Copies(MainThread, schedule) == s.left * (|s.eotd| + 4) + 1)
            && Copies(MainThread, schedule) <= s.left * (|s.eotd| + 4) + 1
            && |end.snapshots| + end.left == s.left
            && (end.main == Finished ==> |end.snapshots| == s.left)
            && forall w :: 0 <= w < |end.writers| && end.writers[w].pc == Stopped ==> end.main == Finished
  {
    assert Inv(s);
    MainSteps(s.table, |s.eotd|, s.left, s, schedule);
    var end := Exec(Step, s, schedule).value;
    assert (end.left - 1) * (|s.eotd| + 4) >= 0 || end.left == 0;
    assert end.main.MainCopy? ==> end.main.j <= |s.eotd| by {
      assert MainOk(end);
    }
    forall w | 0 <= w < |end.writers| && end.writers[w].pc == Stopped
      ensures end.main == Finished
    {
      assert WriterOk(end, w);
    }
  }

  // ---------------------------------------------------------------- progress

  /** The steps writer `w` still needs to let go of the mutex. */
  function HoldLeft(s: State, w: nat): int
    requires w < |s.writers|
  {
    match s.writers[w].pc
    case Copy(j) => |s.shared| - j + 2
    case Unlock => 1
    case _ => 0
  }

  ghost predicate HeldBy(s: State, w: nat)
  {
    Inv(s) && s.mutex == AWriter(w) && w < |s.writers|
  }

  lemma WriterStepInHold(s: State, w: nat, u: nat)
    requires HeldBy(s, w) && u < |s.writers| && WriterStep(s, u).Some?
    ensures var s' := WriterStep(s, u).value;
            if u == w then s'.mutex == Nobody || (HeldBy(s', w) && HoldLeft(s', w) < HoldLeft(s, w))
            else HeldBy(s', w) && HoldLeft(s', w) == HoldLeft(s, w)
  {
    WriterKeepsInv(s, u);
    assert WriterOk(s, w) && WriterOk(s, u);
  }

  /** Only the holder's own steps bring it nearer to letting go; nobody else can set it back. */
  lemma StepInHold(s: State, w: nat, who: Who)
    requires HeldBy(s, w) && Step(s, who).Some?
    ensures var s' := Step(s, who).value;
            if who == WriterThread(w) then s'.mutex == Nobody || (HeldBy(s', w) && HoldLeft(s', w) < HoldLeft(s, w))
            else HeldBy(s', w) && HoldLeft(s', w) == HoldLeft(s, w)
  {
    match who
    case WriterThread(u) => WriterStepInHold(s, w, u);
    case MainThread =>
      MainKeepsInv(s);
      assert WriterOk(s, w) && MainOk(s);
  }

  /** Whatever the others do, the mutex has been free by the time its holder has taken so many
      steps of its own. */
  lemma {:induction false} HolderLetsGo(s: State, w: nat, schedule: seq<Who>)
    requires HeldBy(s, w) && Exec(Step, s, schedule).Some?
    requires Copies(WriterThread(w), schedule) >= HoldLeft(s, w)
    ensures exists i :: 0 <= i <= |schedule| && FreeAfter(s, schedule[..i])
    decreases schedule
  {
    assert WriterOk(s, w);
    assert schedule != [];
    var s' := Step(s, schedule[0]).value;
    StepInHold(s, w, schedule[0]);
    if s'.mutex == Nobody {
      assert schedule[..1] == [schedule[0]] && Exec(Step, s', []) == Some(s');
      assert FreeAfter(s, schedule[..1]);
    } else {
      HolderLetsGo(s', w, schedule[1..]);
      var i :| 0 <= i <= |schedule[1..]| && FreeAfter(s', schedule[1..][..i]);
      assert schedule[..i + 1][1..] == schedule[1..][..i];
      assert FreeAfter(s, schedule[..i + 1]);
    }
  }

  ghost predicate FreeAfter(s: State, schedule: seq<Who>)
  {
    Exec(Step, s, schedule).Some? && Exec(Step, s, schedule).value.mutex == Nobody
  }

  /** Until it has finished, `main` can step, or the writer it waits for can, and lets go of
      the mutex within two steps more than there are fields, however the others come between. */
  lemma {:induction false} MainIsNeverBlockedForGood(s: State)
    requires Inv(s) && s.main != Finished
    ensures Step(s, MainThread).None? ==>
              && s.mutex.AWriter? && Step(s, WriterThread(s.mutex.w)).Some?
              && forall schedule ::
                   Exec(Step, s, schedule).Some? && Copies(WriterThread(s.mutex.w), schedule) >= |s.shared| + 2 ==>
                     exists i :: 0 <= i <= |schedule| && FreeAfter(s, schedule[..i])
  {
    if Step(s, MainThread).None? {
      var w := s.mutex.w;
      assert WriterOk(s, w) && HoldLeft(s, w) <= |s.shared| + 2;
      forall schedule | Exec(Step, s, schedule).Some? && Copies(WriterThread(w), schedule) >= |s.shared| + 2
        ensures exists i :: 0 <= i <= |schedule| && FreeAfter(s, schedule[..i])
      {
        HolderLetsGo(s, w, schedule);
      }
    }
  }

  // ---------------------------------------------------------------- the code

  /** The C string in a `char` array: what stands before the first NUL. */
  function Text(chars: seq<char>): (text: string)
    ensures |text| <= |chars| && text == chars[..|text|]
    ensures '\0' !in text && (|text| < |chars| ==> chars[|text|] == '\0')
  {
    if chars == [] || chars[0] == '\0' then [] else [chars[0]] + Text(chars[1..])
  }

  predicate Terminated(chars: seq<char>) { '\0' in chars }

  /** `strcpy`: the string and its NUL; what lies behind it in `to` stays. */
  method StrCpy(to: array<char>, from: array<char>)
    requires to != from && Terminated(from[..]) && |Text(from[..])| < to.Length
    modifies to
    ensures Text(to[..]) == Text(from[..])
    ensures Terminated(to[..])
    ensures to[|Text(from[..])| + 1..] == old(to[|Text(from[..])| + 1..])
  {
    ghost var text := Text(from[..]);
    var i := 0;
    while from[i] != '\0'
      invariant i <= |text| && to[..i] == text[..i]
      invariant to[i..] == old(to[..])[i..]
      decreases |text| - i
    {
      to[i] := from[i];
      i := i + 1;
    }
    to[i] := '\0';
    assert to[..][..i] == text && to[..][i] == '\0';
  }

  class Employee {
    var number: int
    var id: int
    const firstName: array<char>
    const lastName: array<char>
    const department: array<char>
    var roomNumber: int

    ghost predicate Shape()
      reads this
    {
      && firstName != lastName && lastName != department && firstName != department
      && firstName.Length == 20 && lastName.Length == 30 && department.Length == 30
    }

    ghost predicate Valid()
      reads this, firstName, lastName, department
    {
      Shape() && Terminated(firstName[..]) && Terminated(lastName[..]) && Terminated(department[..])
    }

    /** The record as `main` compares it, with `!=` and with `strcmp`. */
    ghost function Fields(): Record
      reads this, firstName, lastName, department
    {
      [Number(number), Number(id), Chars(Text(firstName[..])), Chars(Text(lastName[..])),
       Chars(Text(department[..])), Number(roomNumber)]
    }
  }

  /** `copy_employee` between its lock and its unlock; the arrays of `to` may hold anything, as
      those of the uninitialised `eotd` do. */
  method CopyEmployee(from: Employee, to: Employee)
    requires from != to && from.Valid() && to.Shape()
    requires {from.firstName, from.lastName, from.department} !! {to.firstName, to.lastName, to.department}
    modifies to, to.firstName, to.lastName, to.department
    ensures to.Valid() && to.Fields() == from.Fields() == old(from.Fields())
  {
    to.number := from.number;
    to.id := from.id;
    StrCpy(to.firstName, from.firstName);
    StrCpy(to.lastName, from.lastName);
    StrCpy(to.department, from.department);
    to.roomNumber := from.roomNumber;
  }
}
