/** `pr9t1wr.c` and `pr9t1re.c`: a writer and a reader share a memory segment whose last byte
  says whose turn it is. Messages go across byte by byte.

  A spinning loop is a step that can only happen once its condition lets it leave the loop.
 */
module Mailbox {
  import opened Bytes
  import opened Runs

  type Text = seq<Byte>

  const EMPTY: Byte := 48  // '0'
  const FULL: Byte := 49   // '1'

  function ExitWord(): Text { [101, 120, 105, 116] }  // "exit"

  /** `strncmp(text, "exit", 4) == 0`. */
  predicate IsExit(text: Text)
  {
    4 <= |text| && text[..4] == ExitWord()
  }

  datatype WriterPc =
    | Clear                // flag := '0' before the loop
    | ReadInput
    | Copying(j: nat)      // strncpy, byte j next
    | SetFlag | Decide | AwaitReader | WriterDone

  datatype ReaderPc =
    | AwaitWriter
    | Comparing(j: nat)
    | Printing(j: nat, text: Text)
    | ResetFlag | ReaderDone

  /** `input` is what the user has yet to type, `sent` what has been typed, `printed` what the
      reader has printed. */
  datatype State = State(
    memory: seq<Byte>, writer: WriterPc, reader: ReaderPc,
    input: seq<Text>, sent: seq<Text>, printed: seq<Text>)

  datatype Who = Writer | Reader

  predicate NoNul(text: Text)
  {
    forall i :: 0 <= i < |text| ==> text[i] != 0
  }

  /** A line that leaves room for a NUL before the flag. */
  predicate Fits(size: nat, text: Text)
  {
    |text| <= size - 2 && NoNul(text)
  }

  /** Neither line `i` nor one before it starts with "exit". */
  ghost predicate BeforeExit(lines: seq<Text>, i: nat)
    requires i < |lines|
  {
    forall j :: 0 <= j <= i ==> !IsExit(lines[j])
  }

  /** Every line before the first that starts with "exit" fits. */
  ghost predicate Fitting(size: nat, lines: seq<Text>)
  {
    forall i :: 0 <= i < |lines| && BeforeExit(lines, i) ==> Fits(size, lines[i])
  }

  /** A fresh segment and an attached reader. */
  ghost predicate Fresh(s: State)
  {
    && 6 <= |s.memory| && (forall i :: 0 <= i < |s.memory| ==> s.memory[i] == 0)
    && s.writer == Clear && s.reader == AwaitWriter && s.sent == [] && s.printed == []
  }

  ghost predicate Init(s: State)
  {
    Fresh(s) && Fitting(|s.memory|, s.input)
  }

  function Last<T>(s: seq<T>): T
    requires s != []
  {
    s[|s| - 1]
  }

  /** What `strncpy` stores at index `j`: the text, then NULs. */
  function PaddedAt(text: Text, j: nat): Byte
  {
    if j < |text| then text[j] else 0
  }

  function Step(s: State, who: Who): Option<State>
  {
    if |s.memory| < 6 then None
    else
      match who
      case Writer => WriterStep(s, |s.memory| - 1)
      case Reader => ReaderStep(s, |s.memory| - 1)
  }

  function WriterStep(s: State, flag: nat): Option<State>
    requires 5 <= flag == |s.memory| - 1
  {
    match s.writer
    case Clear => Some(s.(memory := s.memory[flag := EMPTY], writer := ReadInput))
    case ReadInput =>
      if s.input == [] then None
      else Some(s.(writer := Copying(0), input := s.input[1..], sent := s.sent + [s.input[0]]))
    case Copying(j) =>
      if j >= flag || s.sent == [] then Some(s.(writer := SetFlag))
      else Some(s.(memory := s.memory[j := PaddedAt(Last(s.sent), j)], writer := Copying(j + 1)))
    case SetFlag => Some(s.(memory := s.memory[flag := FULL], writer := Decide))
    case Decide => Some(s.(writer := if s.sent != [] && IsExit(Last(s.sent)) then WriterDone else AwaitReader))
    case AwaitReader => if s.memory[flag] == FULL then None else Some(s.(writer := ReadInput))
    case WriterDone => None
  }

  function ReaderStep(s: State, flag: nat): Option<State>
    requires 5 <= flag == |s.memory| - 1
  {
    match s.reader
    case AwaitWriter => if s.memory[flag] == FULL then Some(s.(reader := Comparing(0))) else None
    case Comparing(j) =>
      if j >= 4 then Some(s.(reader := ReaderDone))
      else if s.memory[j] == ExitWord()[j] then Some(s.(reader := Comparing(j + 1)))
      else Some(s.(reader := Printing(0, [])))
    case Printing(j, text) =>
      if j > flag || s.memory[j] == 0 then Some(s.(reader := ResetFlag, printed := s.printed + [text]))
      else Some(s.(reader := Printing(j + 1, text + [s.memory[j]])))
    case ResetFlag => Some(s.(memory := s.memory[flag := EMPTY], reader := AwaitWriter))
    case ReaderDone => None
  }

  // ---------------------------------------------------------------- invariant

  /** The payload holds the text and a NUL after it. */
  ghost predicate Carries(memory: seq<Byte>, text: Text)
  {
    forall i :: 0 <= i < |memory| - 1 ==> memory[i] == PaddedAt(text, i)
  }

  /** The writer's turn: the flag is down, the reader spins, and everything sent before the
      message being copied has been printed. */
  ghost predicate WritersTurn(s: State)
  {
    && 6 <= |s.memory| && s.memory[|s.memory| - 1] != FULL && s.reader == AwaitWriter
    && match s.writer
       case Clear => s.sent == [] && s.printed == []
       case ReadInput => s.printed == s.sent
       case Copying(j) => s.sent != [] && s.printed == s.sent[..|s.sent| - 1] && j <= |s.memory| - 1
                          && forall i :: 0 <= i < j ==> s.memory[i] == PaddedAt(Last(s.sent), i)
       case SetFlag => s.sent != [] && s.printed == s.sent[..|s.sent| - 1] && Carries(s.memory, Last(s.sent))
       case Decide => s.sent != [] && s.printed == s.sent
       case AwaitReader => s.sent != [] && s.printed == s.sent
       case WriterDone => false
  }

  /** The reader's turn: the flag is up, the payload is the last message sent, whole, and the
      writer keeps its hands off. */
  ghost predicate ReadersTurn(s: State)
  {
    && 6 <= |s.memory| && s.memory[|s.memory| - 1] == FULL && s.sent != [] && Carries(s.memory, Last(s.sent))
    && (s.writer == Decide || s.writer == AwaitReader || (s.writer == WriterDone && IsExit(Last(s.sent))))
    && (s.writer == AwaitReader ==> !IsExit(Last(s.sent)))
    && var text := Last(s.sent);
       match s.reader
       case AwaitWriter => s.printed == s.sent[..|s.sent| - 1]
       case Comparing(j) => s.printed == s.sent[..|s.sent| - 1] && j <= 4 <= 4 + |text|
                            && forall i :: 0 <= i < j ==> PaddedAt(text, i) == ExitWord()[i]
       case Printing(j, done) => s.printed == s.sent[..|s.sent| - 1] && j <= |text| && done == text[..j]
                                 && !IsExit(text)
       case ResetFlag => s.printed == s.sent && !IsExit(text)
       case ReaderDone => s.printed == s.sent[..|s.sent| - 1] && IsExit(text)
  }

  ghost predicate Inv(s: State)
  {
    && 6 <= |s.memory|
    && Fitting(|s.memory|, s.sent + s.input)
    && (forall i :: 0 <= i < |s.printed| ==> !IsExit(s.printed[i]))
    && (WritersTurn(s) || ReadersTurn(s))
  }

  /** The line on its way fits, unless it ends the conversation. */
  lemma LastFits(s: State)
    requires Inv(s) && s.sent != [] && !IsExit(Last(s.sent))
    requires s.printed == s.sent || s.printed == s.sent[..|s.sent| - 1]
    ensures Fits(|s.memory|, Last(s.sent))
  {
    var lines, last := s.sent + s.input, |s.sent| - 1;
    forall j | 0 <= j <= last
      ensures !IsExit(lines[j])
    {
      assert j < last ==> lines[j] == s.printed[j];
    }
    assert BeforeExit(lines, last);
  }

  lemma ExitIsFourBytes(text: Text)
    requires forall i :: 0 <= i < 4 ==> PaddedAt(text, i) == ExitWord()[i]
    ensures IsExit(text)
  {
    assert PaddedAt(text, 3) == ExitWord()[3];
    assert text[..4] == ExitWord();
  }

  lemma WriterKeepsInv(s: State)
    requires Inv(s) && Step(s, Writer).Some?
    ensures Inv(Step(s, Writer).value)
  {
    var s' := Step(s, Writer).value;
    if s.writer == ReadInput {
      assert s'.sent[..|s'.sent| - 1] == s.sent;
      assert s'.sent + s'.input == s.sent + s.input;
    }
  }

  lemma ComparingKeepsInv(s: State)
    requires Inv(s) && s.reader.Comparing? && Step(s, Reader).Some?
    ensures Inv(Step(s, Reader).value)
  {
    if s.reader.j >= 4 {
      ExitIsFourBytes(Last(s.sent));
    }
  }

  lemma PrintingKeepsInv(s: State)
    requires Inv(s) && s.reader.Printing? && Step(s, Reader).Some?
    ensures Inv(Step(s, Reader).value)
  {
    var text, j := Last(s.sent), s.reader.j;
    LastFits(s);
    if j == |text| {
      assert text[..|text|] == text;
      assert s.memory[j] == PaddedAt(text, j);
      assert Step(s, Reader).value.printed == s.sent;
    }
  }

  lemma ReaderKeepsInv(s: State)
    requires Inv(s) && Step(s, Reader).Some?
    ensures Inv(Step(s, Reader).value)
  {
    match s.reader
    case Comparing(_) => ComparingKeepsInv(s);
    case Printing(_, _) => PrintingKeepsInv(s);
    case _ =>
  }

  lemma StepInv(s: State, who: Who)
    requires Inv(s) && Step(s, who).Some?
    ensures Inv(Step(s, who).value)
  {
    match who
    case Writer => WriterKeepsInv(s);
    case Reader => ReaderKeepsInv(s);
  }

  // ---------------------------------------------------------------- every run

  /** Steps to come: a message costs at most a copy, a comparison and a print. */
  function Work(s: State): int
  {
    var size := |s.memory|;
    InputWork(|s.input|, size) + WriterWork(size, s.writer) + ReaderWork(s)
  }

  function InputWork(lines: nat, size: nat): nat
  {
    if lines == 0 then 0 else InputWork(lines - 1, size) + 3 * size + 20
  }

  function WriterWork(size: nat, pc: WriterPc): int
  {
    match pc
    case Clear => 1
    case ReadInput => 0
    case Copying(j) => 2 * size + 13 - j
    case SetFlag => size + 12
    case Decide => 2
    case AwaitReader => 1
    case WriterDone => 0
  }

  function ReaderWork(s: State): int
  {
    var size := |s.memory|;
    match s.reader
    case AwaitWriter => if size > 0 && s.memory[size - 1] == FULL then size + 9 else 0
    case Comparing(j) => size + 8 - j
    case Printing(j, _) => size + 2 - j
    case ResetFlag => 1
    case ReaderDone => 0
  }

  lemma WriterLowersWork(s: State)
    requires Inv(s) && Step(s, Writer).Some?
    ensures Work(Step(s, Writer).value) < Work(s)
  {
  }

  lemma ReaderLowersWork(s: State)
    requires Inv(s) && Step(s, Reader).Some?
    ensures Work(Step(s, Reader).value) < Work(s)
  {
    if s.reader.Printing? {
      LastFits(s);
    }
  }

  lemma StepLowersWork(s: State, who: Who)
    requires Inv(s) && Step(s, who).Some?
    ensures Work(Step(s, who).value) < Work(s)
  {
    match who
    case Writer => WriterLowersWork(s);
    case Reader => ReaderLowersWork(s);
  }

  lemma WorkIsNatural(s: State)
    requires Inv(s)
    ensures Work(s) >= 0
  {
    if s.reader.Printing? {
      LastFits(s);
    }
  }

  ghost predicate Stuck(s: State)
  {
    Step(s, Writer).None? && Step(s, Reader).None?
  }

  /** Everything typed so far and everything still to be typed is what there was to type. */
  ghost predicate FromInput(lines: seq<Text>, s: State)
  {
    Inv(s) && s.sent + s.input == lines
  }

  lemma LinesStay(s: State, who: Who)
    requires Step(s, who).Some?
    ensures Step(s, who).value.sent + Step(s, who).value.input == s.sent + s.input
  {
    if s.writer == ReadInput && who == Writer {
      assert s.input == [s.input[0]] + s.input[1..];
    }
  }

  lemma StepFromInput(lines: seq<Text>, s: State, who: Who)
    requires FromInput(lines, s) && Step(s, who).Some?
    ensures FromInput(lines, Step(s, who).value)
  {
    StepInv(s, who);
    LinesStay(s, who);
  }

  /** In every reachable state the reader has printed the first lines typed, whole and in
      order, and none that starts with "exit"; a line half printed is half of the next one. */
  lemma {:induction false} PrintsAPrefix(s: State, schedule: seq<Who>)
    requires Init(s) && Exec(Step, s, schedule).Some?
    ensures var end := Exec(Step, s, schedule).value;
            && |schedule| <= Work(s) && FromInput(s.input, end)
            && end.printed <= s.input
            && (forall i :: 0 <= i < |end.printed| ==> !IsExit(end.printed[i]))
            && (end.reader.Printing? ==>
                  |end.printed| < |s.input| && end.reader.text <= s.input[|end.printed|])
  {
    var inv := (x: State) => FromInput(s.input, x);
    forall x, who | inv(x) && Step(x, who).Some?
      ensures inv(Step(x, who).value) && Work(Step(x, who).value) < Work(x)
    {
      StepFromInput(s.input, x, who);
      StepLowersWork(x, who);
    }
    assert s.sent + s.input == s.input;
    Invariant(Step, inv, s, schedule);
    Bounded(Step, inv, Work, s, schedule);
    var end := Exec(Step, s, schedule).value;
    WorkIsNatural(end);
    PrintedIsPrefix(s.input, end);
  }

  lemma PrintedIsPrefix(lines: seq<Text>, s: State)
    requires FromInput(lines, s)
    ensures s.printed <= lines
    ensures s.reader.Printing? ==> |s.printed| < |lines| && s.reader.text <= lines[|s.printed|]
  {
    assert s.sent <= lines;
    if s.reader.Printing? {
      assert ReadersTurn(s);
      assert lines[|s.printed|] == Last(s.sent);
    }
  }

  /** Where a run ends: after a line starting with "exit", both have finished and the reader
      has printed exactly the lines before it; without one, exactly all the lines. */
  lemma {:induction false} EndsWithEverythingPrinted(s: State, schedule: seq<Who>)
    requires Init(s) && Exec(Step, s, schedule).Some? && Stuck(Exec(Step, s, schedule).value)
    ensures var end := Exec(Step, s, schedule).value;
            && end.printed <= s.input
            && (forall i :: 0 <= i < |end.printed| ==> !IsExit(end.printed[i]))
            && (if |end.printed| < |s.input|
                then IsExit(s.input[|end.printed|]) && end.writer == WriterDone && end.reader == ReaderDone
                else end.writer == ReadInput && end.reader == AwaitWriter)
  {
    PrintsAPrefix(s, schedule);
    var end := Exec(Step, s, schedule).value;
    if end.writer == WriterDone {
      assert s.input[|end.printed|] == Last(end.sent);
    } else {
      assert end.writer == ReadInput;
    }
  }

  /** The segment may hold anything, and the flag may be up, when the writer comes first: its
      first step lowers the flag, and from then on everything is as from a fresh segment. */
  lemma {:induction false} StaleSegment(s: State, schedule: seq<Who>)
    requires 6 <= |s.memory| && s.writer == Clear && s.reader == AwaitWriter && s.sent == s.printed == []
    requires Fitting(|s.memory|, s.input)
    requires Exec(Step, Step(s, Writer).value, schedule).Some?
    ensures Step(s, Writer).value.memory == s.memory[|s.memory| - 1 := EMPTY]
    ensures Exec(Step, Step(s, Writer).value, schedule).value.printed <= s.input
  {
    var cleared := Step(s, Writer).value;
    assert cleared.sent + cleared.input == s.input;
    var inv := (x: State) => FromInput(s.input, x);
    forall x, who | inv(x) && Step(x, who).Some?
      ensures inv(Step(x, who).value)
    {
      StepFromInput(s.input, x, who);
    }
    Invariant(Step, inv, cleared, schedule);
    PrintedIsPrefix(s.input, Exec(Step, cleared, schedule).value);
  }

  // ---------------------------------------------------------------- the segment

  /** `strlen` of the segment: where printing it stops. */
  function TextAt(memory: seq<Byte>): Text
  {
    if memory == [] || memory[0] == 0 then [] else [memory[0]] + TextAt(memory[1..])
  }

  /** The segment after a line has been copied and the flag raised. */
  function Segment(size: nat, text: Text): seq<Byte>
    requires 1 <= size
  {
    seq(size - 1, j requires 0 <= j < size - 1 => PaddedAt(text, j)) + [FULL]
  }

  lemma {:induction false} TextAtStops(memory: seq<Byte>, n: nat)
    requires n < |memory| && memory[n] == 0 && NoNul(memory[..n])
    ensures TextAt(memory) == memory[..n]
  {
    if n > 0 {
      assert memory[..n][0] != 0 && memory[1..][..n - 1] == memory[..n][1..];
      TextAtStops(memory[1..], n - 1);
      assert memory[..n] == [memory[0]] + memory[1..][..n - 1];
    }
  }

  lemma {:induction false} TextAtRuns(memory: seq<Byte>)
    requires NoNul(memory)
    ensures TextAt(memory) == memory
  {
    if memory != [] {
      TextAtRuns(memory[1..]);
    }
  }

  /** `fgets` can deliver a line of up to size - 1 bytes; the segment gives it back exactly when
      it has at most size - 2. A line of size - 1 bytes leaves no NUL before the flag. */
  lemma RoundTripIffItFits(size: nat, text: Text)
    requires 1 <= size && |text| <= size - 1 && NoNul(text)
    ensures TextAt(Segment(size, text)) == text <==> |text| <= size - 2
  {
    var memory := Segment(size, text);
    if |text| <= size - 2 {
      assert memory[..|text|] == text;
      TextAtStops(memory, |text|);
    } else {
      TextAtRuns(memory);
    }
  }

  // ---------------------------------------------------------------- one line after another

  /** Both sides ready for the next line. */
  predicate Ready(s: State)
  {
    6 <= |s.memory| && s.memory[|s.memory| - 1] != FULL && s.writer == ReadInput && s.reader == AwaitWriter
  }

  lemma {:induction false} WriterCopies(s: State, j: nat)
    requires 6 <= |s.memory| && s.sent != [] && s.writer == Copying(j) && j <= |s.memory| - 1
    requires forall i :: 0 <= i < j ==> s.memory[i] == PaddedAt(Last(s.sent), i)
    ensures Alone(Step, Writer, s, s.(memory := Segment(|s.memory|, Last(s.sent)), writer := Decide))
    decreases |s.memory| - j
  {
    var end := s.(memory := Segment(|s.memory|, Last(s.sent)), writer := Decide);
    var next := Step(s, Writer).value;
    if j < |s.memory| - 1 {
      WriterCopies(next, j + 1);
    } else {
      assert next.memory[|s.memory| - 1 := FULL] == end.memory;
      AloneStay(Step, Writer, end);
      AloneStep(Step, Writer, next, end, end);
    }
    AloneStep(Step, Writer, s, next, end);
  }

  lemma {:induction false} WriterSends(s: State)
    requires Ready(s) && s.input != [] && !IsExit(s.input[0])
    ensures Alone(Step, Writer, s, s.(memory := Segment(|s.memory|, s.input[0]), writer := AwaitReader,
                                      input := s.input[1..], sent := s.sent + [s.input[0]]))
  {
    var first := Step(s, Writer).value;
    var copied := first.(memory := Segment(|s.memory|, s.input[0]), writer := Decide);
    var end := copied.(writer := AwaitReader);
    WriterCopies(first, 0);
    AloneStay(Step, Writer, end);
    AloneStep(Step, Writer, copied, end, end);
    AloneOn(Step, Writer, first, copied, end);
    AloneStep(Step, Writer, s, first, end);
  }

  lemma {:induction false} ReaderCompares(s: State, j: nat)
    requires 6 <= |s.memory| && s.reader == Comparing(j) && j < 4
    requires s.memory[..j] == ExitWord()[..j] && s.memory[..4] != ExitWord()
    ensures Alone(Step, Reader, s, s.(reader := Printing(0, [])))
    decreases 4 - j
  {
    var next := Step(s, Reader).value;
    if s.memory[j] == ExitWord()[j] {
      assert s.memory[..j + 1] == ExitWord()[..j + 1];
      ReaderCompares(next, j + 1);
    } else {
      AloneStay(Step, Reader, next);
    }
    AloneStep(Step, Reader, s, next, s.(reader := Printing(0, [])));
  }

  lemma {:induction false} ReaderPrints(s: State, j: nat)
    requires 6 <= |s.memory| && j <= |s.memory| && s.reader == Printing(j, s.memory[..j]) && NoNul(s.memory[..j])
    ensures Alone(Step, Reader, s, s.(reader := ResetFlag, printed := s.printed + [TextAt(s.memory)]))
    decreases |s.memory| - j
  {
    var end := s.(reader := ResetFlag, printed := s.printed + [TextAt(s.memory)]);
    var next := Step(s, Reader).value;
    if j == |s.memory| || s.memory[j] == 0 {
      if j == |s.memory| {
        assert s.memory[..j] == s.memory;
        TextAtRuns(s.memory);
      } else {
        TextAtStops(s.memory, j);
      }
      AloneStay(Step, Reader, end);
    } else {
      assert s.memory[..j + 1] == s.memory[..j] + [s.memory[j]];
      ReaderPrints(next, j + 1);
    }
    AloneStep(Step, Reader, s, next, end);
  }

  lemma {:induction false} ReaderAnswers(s: State)
    requires 6 <= |s.memory| && s.memory[|s.memory| - 1] == FULL && s.reader == AwaitWriter
    requires s.memory[..4] != ExitWord()
    ensures Alone(Step, Reader, s, s.(memory := s.memory[|s.memory| - 1 := EMPTY],
                                      printed := s.printed + [TextAt(s.memory)]))
  {
    var first := Step(s, Reader).value;
    var printing := s.(reader := Printing(0, []));
    var printed := s.(reader := ResetFlag, printed := s.printed + [TextAt(s.memory)]);
    var end := Step(printed, Reader).value;
    assert s.memory[..0] == [] == ExitWord()[..0];
    ReaderCompares(first, 0);
    ReaderPrints(printing, 0);
    AloneStay(Step, Reader, end);
    AloneStep(Step, Reader, printed, end, end);
    AloneOn(Step, Reader, printing, printed, end);
    AloneOn(Step, Reader, first, printing, end);
    AloneStep(Step, Reader, s, first, end);
  }

  /** One line goes across: what is printed is what the segment holds. */
  lemma {:induction false} LineGoesAcross(s: State)
    requires Ready(s) && s.input != [] && !IsExit(s.input[0])
    ensures exists s' :: Reaches(Step, s, s') && Ready(s') && |s'.memory| == |s.memory| && s'.input == s.input[1..]
                         && s'.printed == s.printed + [TextAt(Segment(|s.memory|, s.input[0]))]
  {
    var size, text := |s.memory|, s.input[0];
    WriterSends(s);
    var sent := s.(memory := Segment(size, text), writer := AwaitReader,
                   input := s.input[1..], sent := s.sent + [text]);
    if sent.memory[..4] == ExitWord() {
      forall i | 0 <= i < 4
        ensures PaddedAt(text, i) == ExitWord()[i]
      {
        assert sent.memory[..4][i] == sent.memory[i];
      }
      ExitIsFourBytes(text);
    }
    ReaderAnswers(sent);
    var answered := sent.(memory := sent.memory[size - 1 := EMPTY], printed := s.printed + [TextAt(sent.memory)]);
    var end := answered.(writer := ReadInput);
    AloneStay(Step, Writer, end);
    AloneStep(Step, Writer, answered, end, end);
    AloneReaches(Step, Writer, s, sent);
    AloneReaches(Step, Reader, sent, answered);
    AloneReaches(Step, Writer, answered, end);
    ReachesOn(Step, s, sent, answered);
    ReachesOn(Step, s, answered, end);
  }

  /** What a segment of `size` bytes makes of the lines. */
  function Shown(size: nat, lines: seq<Text>): seq<Text>
    requires 1 <= size
  {
    seq(|lines|, i requires 0 <= i < |lines| => TextAt(Segment(size, lines[i])))
  }

  lemma {:induction false} LinesGoAcross(s: State, n: nat)
    requires Ready(s) && n <= |s.input| && forall i :: 0 <= i < n ==> !IsExit(s.input[i])
    ensures exists s' :: Reaches(Step, s, s') && s'.printed == s.printed + Shown(|s.memory|, s.input[..n])
    decreases n
  {
    if n == 0 {
      ReachesStay(Step, s);
      assert s.printed == s.printed + Shown(|s.memory|, s.input[..0]);
    } else {
      LineGoesAcross(s);
      var mid :| Reaches(Step, s, mid) && Ready(mid) && |mid.memory| == |s.memory| && mid.input == s.input[1..]
                 && mid.printed == s.printed + [TextAt(Segment(|s.memory|, s.input[0]))];
      LinesGoAcross(mid, n - 1);
      var end :| Reaches(Step, mid, end) && end.printed == mid.printed + Shown(|mid.memory|, mid.input[..n - 1]);
      ReachesOn(Step, s, mid, end);
      assert s.input[..n] == [s.input[0]] + mid.input[..n - 1];
      assert end.printed == s.printed + Shown(|s.memory|, s.input[..n]);
    }
  }

  lemma {:induction false} FirstLinesGoAcross(s: State, n: nat)
    requires Fresh(s) && n <= |s.input| && forall i :: 0 <= i < n ==> !IsExit(s.input[i])
    ensures exists s' :: Reaches(Step, s, s') && s'.printed == Shown(|s.memory|, s.input[..n])
  {
    var start := Step(s, Writer).value;
    AloneStay(Step, Writer, start);
    AloneStep(Step, Writer, s, start, start);
    AloneReaches(Step, Writer, s, start);
    LinesGoAcross(start, n);
    var end :| Reaches(Step, start, end) && end.printed == start.printed + Shown(|s.memory|, s.input[..n]);
    ReachesOn(Step, s, start, end);
    assert end.printed == Shown(|s.memory|, s.input[..n]);
  }

  lemma OverlongText(size: nat, text: Text)
    requires 1 <= size == |text| + 1 && NoNul(text)
    ensures TextAt(Segment(size, text)) == text + [FULL]
  {
    TextAtRuns(Segment(size, text));
    assert Segment(size, text) == text + [FULL];
  }

  /** A line of SHM_SIZE-1 bytes is printed with the flag behind it. */
  lemma {:induction false} OverlongLineIsSpoilt(s: State, i: nat)
    requires Fresh(s) && i < |s.input| && BeforeExit(s.input, i)
    requires |s.input[i]| == |s.memory| - 1 && NoNul(s.input[i])
    ensures exists schedule ::
              && Exec(Step, s, schedule).Some?
              && |Exec(Step, s, schedule).value.printed| == i + 1
              && Exec(Step, s, schedule).value.printed[i] == s.input[i] + [FULL]
              && !(Exec(Step, s, schedule).value.printed <= s.input)
  {
    var text := s.input[i];
    OverlongText(|s.memory|, text);
    FirstLinesGoAcross(s, i + 1);
    var end :| Reaches(Step, s, end) && end.printed == Shown(|s.memory|, s.input[..i + 1]);
    var schedule :| Exec(Step, s, schedule) == Some(end);
    assert end.printed[i] == text + [FULL];
  }

  /** With lines as `fgets` delivers them, of up to SHM_SIZE-1 bytes, what the reader prints is a
      prefix of what was typed in every run if and only if every line before the first "exit"
      has at most SHM_SIZE-2 bytes. */
  lemma {:induction false} PrefixIffFitting(s: State)
    requires Fresh(s) && forall i :: 0 <= i < |s.input| ==> |s.input[i]| <= |s.memory| - 1 && NoNul(s.input[i])
    ensures (forall schedule :: Exec(Step, s, schedule).Some? ==> Exec(Step, s, schedule).value.printed <= s.input)
            <==> Fitting(|s.memory|, s.input)
  {
    if Fitting(|s.memory|, s.input) {
      forall schedule | Exec(Step, s, schedule).Some?
        ensures Exec(Step, s, schedule).value.printed <= s.input
      {
        PrintsAPrefix(s, schedule);
      }
    } else {
      var i :| 0 <= i < |s.input| && BeforeExit(s.input, i) && !Fits(|s.memory|, s.input[i]);
      OverlongLineIsSpoilt(s, i);
    }
  }

  class SharedMemory {
    const bytes: array<Byte>

    constructor (size: nat)
      ensures fresh(bytes) && bytes.Length == size && forall i :: 0 <= i < size ==> bytes[i] == 0
    {
      bytes := new Byte[size](_ => 0);
    }

    /** The writer's turn: `strncpy` and the flag. */
    method Send(buffer: Text)
      requires 1 <= bytes.Length
      modifies bytes
      ensures bytes[..] == Segment(bytes.Length, buffer)
    {
      for j := 0 to bytes.Length - 1
        invariant forall i :: 0 <= i < j ==> bytes[i] == PaddedAt(buffer, i)
      {
        bytes[j] := if j < |buffer| then buffer[j] else 0;
      }
      bytes[bytes.Length - 1] := FULL;
    }

    /** The reader's turn: print up to the NUL, then lower the flag. */
    method Receive() returns (text: Text)
      requires 1 <= bytes.Length
      modifies bytes
      ensures text == TextAt(old(bytes[..]))
      ensures bytes[..] == old(bytes[..])[bytes.Length - 1 := EMPTY]
    {
      text := [];
      var j := 0;
      ghost var memory := bytes[..];
      while j < bytes.Length && bytes[j] != 0
        invariant 0 <= j <= bytes.Length && text == memory[..j] && NoNul(text)
        invariant bytes[..] == memory
      {
        text := text + [bytes[j]];
        j := j + 1;
      }
      if j < bytes.Length {
        TextAtStops(memory, j);
      } else {
        TextAtRuns(memory);
      }
      bytes[bytes.Length - 1] := EMPTY;
    }
  }
}
