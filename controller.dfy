/**
 * The interactive controller: the menu loop, its retry prompts, and the add,
 * view, search, update and delete flows.
 *
 * Console input is the sequence of lines still to be read; every flow takes it
 * and returns what is left. When no line is left the Scanner throws and the
 * program stops, which a flow reports as `ended`. The database gateway is an
 * oracle: the flows return the gateway calls they issue, and the answer to a
 * lookup by id is `lookup(history, id)`, where `history` is every call issued
 * before it in the session.
 */
module Controller {
  import opened Wrappers
  import opened JavaText
  import opened StudentRecord
  import opened Validation
  import opened UpdateRule

  /** One call into the gateway. */
  datatype Call =
    | Create(student: StudentValue)
    | GetAll
    | GetById(id: int)
    | SearchByName(name: string)
    | Update(student: StudentValue)
    | Delete(id: int)

  /**
   * What the model does not compute itself, each None where Java throws:
   * Scanner.nextInt and Scanner.nextDouble on a console line (the menu choice
   * and the add and id prompts), Integer.parseInt and Double.parseDouble on a
   * trimmed line (the update flow), and the gateway's answer to getStudentById.
   */
  datatype Oracles = Oracles(
    nextInt: string -> Option<int>,
    parseInt: string -> Option<int>,
    nextDouble: string -> Option<real>,
    parseDouble: string -> Option<real>,
    lookup: (seq<Call>, int) -> Option<StudentValue>)

  /** `rest` is what is left of `input` after some lines were read from its front. */
  predicate IsSuffix(rest: seq<string>, input: seq<string>) {
    |rest| <= |input| && rest == input[|input| - |rest|..]
  }

  // ---------------------------------------------------------------------------
  // Menu dispatch
  // ---------------------------------------------------------------------------

  datatype Command =
    | MenuExit | MenuAdd | MenuViewAll | MenuViewById | MenuSearch | MenuUpdate | MenuDelete
    | MenuInvalid

  /** The switch of main: 0 exits, 1 to 6 select an operation, anything else is invalid. */
  function CommandOf(choice: int): (c: Command)
    ensures c == MenuExit <==> choice == 0
    ensures c == MenuInvalid <==> choice < 0 || 6 < choice
  {
    match choice
    case 0 => MenuExit
    case 1 => MenuAdd
    case 2 => MenuViewAll
    case 3 => MenuViewById
    case 4 => MenuSearch
    case 5 => MenuUpdate
    case 6 => MenuDelete
    case _ => MenuInvalid
  }

  /** The number displayMenu prints beside each operation. */
  function MenuNumber(c: Command): (n: int)
    requires c != MenuInvalid
    ensures 0 <= n <= 6
  {
    match c
    case MenuExit => 0
    case MenuAdd => 1
    case MenuViewAll => 2
    case MenuViewById => 3
    case MenuSearch => 4
    case MenuUpdate => 5
    case MenuDelete => 6
  }

  /** The numbers 0 to 6 and the seven operations correspond one to one. */
  lemma MenuNumbering(c: Command, choice: int)
    ensures c != MenuInvalid ==> CommandOf(MenuNumber(c)) == c
    ensures 0 <= choice <= 6 ==> MenuNumber(CommandOf(choice)) == choice
  {
  }

  /** getUserChoice: the number on the line, or -1 when nextInt throws. */
  function UserChoice(line: string, nextInt: string -> Option<int>): int {
    match nextInt(line)
    case Some(choice) => choice
    case None => -1
  }

  /** A line that is not a number is an invalid choice, and does not exit. */
  lemma NonNumericChoiceIsInvalid(line: string, nextInt: string -> Option<int>)
    requires nextInt(line).None?
    ensures CommandOf(UserChoice(line, nextInt)) == MenuInvalid
  {
  }

  // ---------------------------------------------------------------------------
  // Retry prompts
  // ---------------------------------------------------------------------------

  /** A line that the prompt takes: it parses, and the parsed value is accepted. */
  predicate Takes<T>(line: string, parse: string -> Option<T>, accept: T -> bool) {
    parse(line).Some? && accept(parse(line).value)
  }

  /** What a prompt returns: the value it took (None when the input ran out) and the lines after it. */
  datatype Read<T> = Read(value: Option<T>, rest: seq<string>)

  /**
   * The re-prompt loop shared by every prompt of the controller, as a
   * function of the lines still to be read: skip lines until one parses to an
   * accepted value, and take that value.
   */
  function Prompt<T>(lines: seq<string>, parse: string -> Option<T>, accept: T -> bool): (r: Read<T>)
    ensures IsSuffix(r.rest, lines) && (r.value.None? ==> r.rest == [])
    decreases |lines|
  {
    if lines == [] then Read(None, [])
    else if Takes(lines[0], parse, accept) then Read(parse(lines[0]), lines[1..])
    else Prompt(lines[1..], parse, accept)
  }

  /**
   * A prompt takes the first line that parses to an accepted value and refuses
   * every line before it; it returns None only when it refused every line.
   */
  lemma {:induction false} PromptTakesFirst<T>(lines: seq<string>, parse: string -> Option<T>, accept: T -> bool)
    ensures var r := Prompt(lines, parse, accept);
            && (r.value.None? ==> forall i :: 0 <= i < |lines| ==> !Takes(lines[i], parse, accept))
            && (r.value.Some? ==>
                  && |r.rest| < |lines|
                  && var k := |lines| - |r.rest| - 1;
                  && parse(lines[k]) == r.value && accept(r.value.value)
                  && forall i :: 0 <= i < k ==> !Takes(lines[i], parse, accept))
    decreases |lines|
  {
    if lines != [] && !Takes(lines[0], parse, accept) {
      var tail := lines[1..];
      PromptTakesFirst(tail, parse, accept);
      assert Prompt(lines, parse, accept) == Prompt(tail, parse, accept);
      forall i | 1 <= i < |lines|
        ensures lines[i] == tail[i - 1]
      {
      }
    }
  }

  /** The loop itself: read lines until one is taken. */
  method ReadUntilAccepted<T>(input: seq<string>, parse: string -> Option<T>, accept: T -> bool)
    returns (value: Option<T>, rest: seq<string>)
    ensures Read(value, rest) == Prompt(input, parse, accept)
    ensures IsSuffix(rest, input)
    ensures value.None? ==> rest == [] && forall i :: 0 <= i < |input| ==> !Takes(input[i], parse, accept)
    ensures value.Some? ==>
              && |rest| < |input|
              && var k := |input| - |rest| - 1;
              && parse(input[k]) == value && accept(value.value)
              && forall i :: 0 <= i < k ==> !Takes(input[i], parse, accept)
  {
    PromptTakesFirst(input, parse, accept);
    rest := input;
    while rest != []
      invariant IsSuffix(rest, input)
      invariant Prompt(rest, parse, accept) == Prompt(input, parse, accept)
      decreases |rest|
    {
      var line := rest[0];
      rest := rest[1..];
      var parsed := parse(line);
      if parsed.Some? && accept(parsed.value) {
        return parsed, rest;
      }
    }
    return None, rest;
  }

  /** The integer prompt over min..max, bounds included. */
  function IntPrompt(lines: seq<string>, min: int, max: int, nextInt: string -> Option<int>): (r: Read<int>)
    ensures IsSuffix(r.rest, lines) && (r.value.None? ==> r.rest == [])
    ensures r.value.Some? ==> InRange(r.value.value, min, max)
  {
    PromptTakesFirst(lines, nextInt, v => InRange(v, min, max));
    Prompt(lines, nextInt, v => InRange(v, min, max))
  }

  /** The id prompt of the view, update and delete flows: 1..Integer.MAX_VALUE. */
  function IdPrompt(lines: seq<string>, nextInt: string -> Option<int>): Read<int> {
    IntPrompt(lines, 1, IntMax, nextInt)
  }

  /** getValidIntInput: the first line whose number lies in min..max, bounds included. */
  method GetValidIntInput(input: seq<string>, min: int, max: int, nextInt: string -> Option<int>)
    returns (value: Option<int>, rest: seq<string>)
    ensures Read(value, rest) == IntPrompt(input, min, max, nextInt)
    ensures IsSuffix(rest, input)
    ensures value.None? ==> rest == []
    ensures value.Some? ==> InRange(value.value, min, max) && |rest| < |input|
    ensures value.Some? ==> nextInt(input[|input| - |rest| - 1]) == value
    ensures forall i :: 0 <= i < |input| - |rest| - (if value.Some? then 1 else 0) ==>
              nextInt(input[i]).None? || !InRange(nextInt(input[i]).value, min, max)
  {
    value, rest := ReadUntilAccepted(input, nextInt, v => InRange(v, min, max));
  }

  /** The real-number prompt over min..max, bounds included. */
  function RealPrompt(lines: seq<string>, min: real, max: real, nextDouble: string -> Option<real>): (r: Read<real>)
    ensures IsSuffix(r.rest, lines) && (r.value.None? ==> r.rest == [])
    ensures r.value.Some? ==> InRealRange(r.value.value, min, max)
  {
    PromptTakesFirst(lines, nextDouble, v => InRealRange(v, min, max));
    Prompt(lines, nextDouble, v => InRealRange(v, min, max))
  }

  /** getValidDoubleInput: the first line whose number lies in min..max, bounds included. */
  method GetValidRealInput(input: seq<string>, min: real, max: real, nextDouble: string -> Option<real>)
    returns (value: Option<real>, rest: seq<string>)
    ensures Read(value, rest) == RealPrompt(input, min, max, nextDouble)
    ensures IsSuffix(rest, input)
    ensures value.None? ==> rest == []
    ensures value.Some? ==> InRealRange(value.value, min, max) && |rest| < |input|
    ensures value.Some? ==> nextDouble(input[|input| - |rest| - 1]) == value
    ensures forall i :: 0 <= i < |input| - |rest| - (if value.Some? then 1 else 0) ==>
              nextDouble(input[i]).None? || !InRealRange(nextDouble(input[i]).value, min, max)
  {
    value, rest := ReadUntilAccepted(input, nextDouble, v => InRealRange(v, min, max));
  }

  /** A text line is always read; the prompt works on it trimmed. */
  function TrimmedLine(line: string): Option<string> {
    Some(Trim(line))
  }

  /** The text prompt: the first line whose trimmed text passes `valid`, trimmed. */
  function LinePrompt(lines: seq<string>, valid: string -> bool): (r: Read<string>)
    ensures IsSuffix(r.rest, lines) && (r.value.None? ==> r.rest == [])
    ensures r.value.Some? ==> valid(r.value.value) && Trim(r.value.value) == r.value.value
  {
    var r := Prompt(lines, TrimmedLine, valid);
    PromptTakesFirst(lines, TrimmedLine, valid);
    if r.value.Some? then
      TrimIdempotent(lines[|lines| - |r.rest| - 1]);
      r
    else r
  }

  /** A text prompt whose first line passes once trimmed takes that line, trimmed. */
  lemma LinePromptTakesHead(line: string, rest: seq<string>, valid: string -> bool)
    requires valid(Trim(line))
    ensures LinePrompt([line] + rest, valid) == Read(Some(Trim(line)), rest)
  {
    assert ([line] + rest)[1..] == rest;
  }

  /** An integer prompt whose first line reads as a number in min..max takes it. */
  lemma IntPromptTakesHead(line: string, rest: seq<string>, min: int, max: int, nextInt: string -> Option<int>)
    requires nextInt(line).Some? && InRange(nextInt(line).value, min, max)
    ensures IntPrompt([line] + rest, min, max, nextInt) == Read(nextInt(line), rest)
  {
    assert ([line] + rest)[1..] == rest;
  }

  /** A real-number prompt whose first line reads as a number in min..max takes it. */
  lemma RealPromptTakesHead(line: string, rest: seq<string>, min: real, max: real, nextDouble: string -> Option<real>)
    requires nextDouble(line).Some? && InRealRange(nextDouble(line).value, min, max)
    ensures RealPrompt([line] + rest, min, max, nextDouble) == Read(nextDouble(line), rest)
  {
    assert ([line] + rest)[1..] == rest;
  }

  /** A prompt that re-reads until the trimmed line passes `valid`, and returns it trimmed. */
  method ReadValidLine(input: seq<string>, valid: string -> bool)
    returns (value: Option<string>, rest: seq<string>)
    ensures Read(value, rest) == LinePrompt(input, valid)
    ensures IsSuffix(rest, input)
    ensures value.None? ==> rest == []
    ensures value.Some? ==>
              |rest| < |input| && value.value == Trim(input[|input| - |rest| - 1]) && valid(value.value)
    ensures value.Some? ==> Trim(value.value) == value.value
    ensures forall i :: 0 <= i < |input| - |rest| - (if value.Some? then 1 else 0) ==> !valid(Trim(input[i]))
  {
    value, rest := ReadUntilAccepted(input, TrimmedLine, valid);
  }

  // ---------------------------------------------------------------------------
  // The flows behind the menu
  // ---------------------------------------------------------------------------

  /**
   * What one flow does: the gateway calls it issues, the lines left after it,
   * and whether the input ran out inside it (the Scanner throws and the
   * program stops).
   */
  datatype Outcome = Outcome(calls: seq<Call>, rest: seq<string>, ended: bool)

  /** The name test of the add prompt: the trimmed line is not empty. */
  predicate IsNonEmpty(t: string) {
    t != ""
  }

  /**
   * addStudent: name, email, age, GPA and date are each re-prompted until
   * valid, in that order; then the new Student, whose id is still unset, is
   * handed to create. The flow ends only when one of its prompts refused
   * every remaining line.
   */
  function AddFlow(input: seq<string>, o: Oracles): (r: Outcome)
    ensures IsSuffix(r.rest, input) && (r.ended ==> r.rest == [])
  {
    var name := LinePrompt(input, IsNonEmpty);
    if name.value.None? then Outcome([], [], true) else
    var email := LinePrompt(name.rest, IsValidEmail);
    if email.value.None? then Outcome([], [], true) else
    var age := IntPrompt(email.rest, AgeMin, AgeMax, o.nextInt);
    if age.value.None? then Outcome([], [], true) else
    var gpa := RealPrompt(age.rest, GpaMin, GpaMax, o.nextDouble);
    if gpa.value.None? then Outcome([], [], true) else
    var enrollmentDate := LinePrompt(gpa.rest, IsValidDate);
    if enrollmentDate.value.None? then Outcome([], [], true) else
    var v := StudentValue(UnsavedId, name.value.value, email.value.value, age.value.value,
                          gpa.value.value, enrollmentDate.value.value);
    Outcome([Create(v)], enrollmentDate.rest, false)
  }

  /**
   * The add flow writes exactly when it does not run out of input, and what it
   * writes is one unsaved record that passes every validator.
   */
  lemma AddFlowCreatesAdmissible(input: seq<string>, o: Oracles)
    ensures var r := AddFlow(input, o);
            && (r.ended <==> r.calls == [])
            && (!r.ended ==> && |r.calls| == 1 && r.calls[0].Create?
                             && r.calls[0].student.id == UnsavedId && Admissible(r.calls[0].student))
  {
    var r := AddFlow(input, o);
    if !r.ended {
      var v := r.calls[0].student;
      assert IsValidName(v.name) && IsValidEmail(v.email);
      assert IsValidAge(v.age) && IsValidGpa(v.gpa);
    }
  }

  /**
   * Five lines that the five prompts accept, in order, make the add flow
   * create the record they spell: the trimmed name, e-mail and date, and the
   * age and GPA the scanner reads; the flow then stops reading.
   */
  lemma AddFlowOnAcceptedLines(n: string, e: string, a: string, g: string, d: string,
                               tail: seq<string>, o: Oracles)
    requires Trim(n) != "" && IsValidEmail(Trim(e)) && IsValidDate(Trim(d))
    requires o.nextInt(a).Some? && IsValidAge(o.nextInt(a).value)
    requires o.nextDouble(g).Some? && IsValidGpa(o.nextDouble(g).value)
    ensures AddFlow([n, e, a, g, d] + tail, o)
            == Outcome([Create(StudentValue(UnsavedId, Trim(n), Trim(e), o.nextInt(a).value,
                                            o.nextDouble(g).value, Trim(d)))], tail, false)
  {
    var r4 := [d] + tail;
    var r3 := [g] + r4;
    var r2 := [a] + r3;
    var r1 := [e] + r2;
    assert [n, e, a, g, d] + tail == [n] + r1;
    LinePromptTakesHead(n, r1, IsNonEmpty);
    LinePromptTakesHead(e, r2, IsValidEmail);
    IntPromptTakesHead(a, r3, AgeMin, AgeMax, o.nextInt);
    RealPromptTakesHead(g, r4, GpaMin, GpaMax, o.nextDouble);
    LinePromptTakesHead(d, tail, IsValidDate);
  }

  method AddStudent(input: seq<string>, o: Oracles)
    returns (calls: seq<Call>, rest: seq<string>, ended: bool)
    ensures Outcome(calls, rest, ended) == AddFlow(input, o)
    ensures IsSuffix(rest, input) && (ended ==> rest == [])
    ensures ended ==> calls == []
    ensures !ended ==> |calls| == 1 && calls[0].Create?
                       && calls[0].student.id == UnsavedId && Admissible(calls[0].student)
  {
    calls, rest, ended := [], [], true;
    label prompts: {
      var name, r1 := ReadValidLine(input, IsNonEmpty);
      if name.None? {
        break prompts;
      }
      var email, r2 := ReadValidLine(r1, IsValidEmail);
      if email.None? {
        break prompts;
      }
      var age, r3 := GetValidIntInput(r2, AgeMin, AgeMax, o.nextInt);
      if age.None? {
        break prompts;
      }
      var gpa, r4 := GetValidRealInput(r3, GpaMin, GpaMax, o.nextDouble);
      if gpa.None? {
        break prompts;
      }
      var enrollmentDate, r5 := ReadValidLine(r4, IsValidDate);
      if enrollmentDate.None? {
        break prompts;
      }
      var student := new Student.Unsaved(name.value, email.value, age.value, gpa.value, enrollmentDate.value);
      calls, rest, ended := [Create(student.Value())], r5, false;
    }
    assert Outcome(calls, rest, ended) == AddFlow(input, o);
    AddFlowCreatesAdmissible(input, o);
  }

  /** viewStudentById: an id of at least 1 is read and looked up. */
  function ViewFlow(input: seq<string>, o: Oracles): (r: Outcome)
    ensures IsSuffix(r.rest, input) && (r.ended ==> r.rest == [])
  {
    var id := IdPrompt(input, o.nextInt);
    if id.value.None? then Outcome([], [], true)
    else Outcome([GetById(id.value.value)], id.rest, false)
  }

  /**
   * The view flow looks up the number on the line its prompt took, and ends
   * only when no remaining line holds a number of at least 1.
   */
  lemma ViewFlowLooksUpTakenId(input: seq<string>, o: Oracles)
    ensures var r := ViewFlow(input, o);
            && (r.ended <==> r.calls == [])
            && (r.ended ==> forall i :: 0 <= i < |input| ==>
                              o.nextInt(input[i]).None? || !InRange(o.nextInt(input[i]).value, 1, IntMax))
            && (!r.ended ==> && |r.calls| == 1 && r.calls[0].GetById? && InRange(r.calls[0].id, 1, IntMax)
                             && |r.rest| < |input| && o.nextInt(input[|input| - |r.rest| - 1]) == Some(r.calls[0].id))
  {
    PromptTakesFirst(input, o.nextInt, v => InRange(v, 1, IntMax));
  }

  method ViewStudentById(input: seq<string>, o: Oracles)
    returns (calls: seq<Call>, rest: seq<string>, ended: bool)
    ensures Outcome(calls, rest, ended) == ViewFlow(input, o)
    ensures IsSuffix(rest, input) && (ended ==> rest == [])
    ensures ended ==> calls == []
    ensures !ended ==> |calls| == 1 && calls[0].GetById? && InRange(calls[0].id, 1, IntMax)
  {
    var id, r1 := GetValidIntInput(input, 1, IntMax, o.nextInt);
    if id.None? {
      return [], [], true;
    }
    calls, rest, ended := [GetById(id.value)], r1, false;
  }

  /** searchStudentsByName: the next line, trimmed and possibly empty, is the search text. */
  function SearchFlow(input: seq<string>): (r: Outcome)
    ensures IsSuffix(r.rest, input) && (r.ended ==> r.rest == [])
    ensures r.ended <==> input == []
    ensures r.ended ==> r.calls == []
    ensures !r.ended ==> && r.rest == input[1..] && |r.calls| == 1 && r.calls[0].SearchByName?
                         && r.calls[0].name == Trim(input[0]) && Trim(r.calls[0].name) == r.calls[0].name
  {
    if input == [] then Outcome([], [], true)
    else
      TrimIdempotent(input[0]);
      Outcome([SearchByName(Trim(input[0]))], input[1..], false)
  }

  method SearchStudentsByName(input: seq<string>)
    returns (calls: seq<Call>, rest: seq<string>, ended: bool)
    ensures Outcome(calls, rest, ended) == SearchFlow(input)
    ensures IsSuffix(rest, input) && (ended ==> rest == [])
    ensures ended ==> calls == []
    ensures !ended ==> |input| > 0 && rest == input[1..] && calls == [SearchByName(Trim(input[0]))]
  {
    if input == [] {
      return [], [], true;
    }
    calls, rest, ended := [SearchByName(Trim(input[0]))], input[1..], false;
  }

  /** The five lines that follow the id in the update flow. */
  function EditsOf(lines: seq<string>): Edits
    requires |lines| == 5
  {
    Edits(lines[0], lines[1], lines[2], lines[3], lines[4])
  }

  /**
   * updateStudent: read an id and look it up; when nothing is found, stop
   * without writing and without reading more. Otherwise read five lines,
   * merge them into the fetched Student and write it back.
   */
  function UpdateFlow(input: seq<string>, o: Oracles, history: seq<Call>): (r: Outcome)
    ensures IsSuffix(r.rest, input) && (r.ended ==> r.rest == [])
  {
    var id := IdPrompt(input, o.nextInt);
    if id.value.None? then Outcome([], [], true)
    else
      var found := o.lookup(history, id.value.value);
      if found.None? then Outcome([GetById(id.value.value)], id.rest, false)
      else if |id.rest| < 5 then Outcome([GetById(id.value.value)], [], true)
      else Outcome([GetById(id.value.value),
                    Update(Merge(found.value, EditsOf(id.rest[..5]), o.parseInt, o.parseDouble))],
                   id.rest[5..], false)
  }

  /**
   * The update flow looks up the id its prompt took. When nothing is found it
   * writes nothing and reads nothing more; when a record is found it ends only
   * if fewer than five lines follow the id, and otherwise writes once more.
   */
  lemma UpdateFlowLooksUp(input: seq<string>, o: Oracles, history: seq<Call>)
    ensures var r := UpdateFlow(input, o, history);
            var id := IdPrompt(input, o.nextInt);
            && |r.calls| <= 2 && (r.ended ==> |r.calls| <= 1)
            && (r.calls == [] <==> id.value.None?)
            && (r.calls != [] ==> r.calls[0] == GetById(id.value.value) && InRange(r.calls[0].id, 1, IntMax))
            && (r.calls != [] && o.lookup(history, r.calls[0].id).None? ==>
                  |r.calls| == 1 && !r.ended && r.rest == id.rest)
            && (r.calls != [] && o.lookup(history, r.calls[0].id).Some? ==>
                  (r.ended <==> |id.rest| < 5) && (!r.ended ==> |r.calls| == 2))
  {
    var r := UpdateFlow(input, o, history);
    var id := IdPrompt(input, o.nextInt);
    if id.value.None? {
      assert r == Outcome([], [], true);
    } else if o.lookup(history, id.value.value).None? {
      assert r == Outcome([GetById(id.value.value)], id.rest, false);
    } else if |id.rest| < 5 {
      assert r == Outcome([GetById(id.value.value)], [], true);
    } else {
      assert |r.calls| == 2 && !r.ended;
    }
  }

  /** The second call of the update flow writes the merge of the five lines after the id. */
  lemma UpdateFlowWritesEdits(input: seq<string>, o: Oracles, history: seq<Call>)
    ensures var r := UpdateFlow(input, o, history);
            var id := IdPrompt(input, o.nextInt);
            |r.calls| == 2 ==>
              && id.value.Some? && o.lookup(history, id.value.value).Some?
              && |id.rest| >= 5 && r.rest == id.rest[5..]
              && r.calls[0] == GetById(id.value.value)
              && r.calls[1] == Update(Merge(o.lookup(history, id.value.value).value, EditsOf(id.rest[..5]),
                                            o.parseInt, o.parseDouble))
  {
  }

  /**
   * What the update flow writes back is exactly the merge of the five lines
   * that follow the id, for the record found, and it changes no field to a
   * value its validator refuses.
   */
  lemma UpdateFlowWritesMerge(input: seq<string>, o: Oracles, history: seq<Call>)
    ensures var r := UpdateFlow(input, o, history);
            |r.calls| == 2 ==>
              && o.lookup(history, r.calls[0].id).Some?
              && |input| - |r.rest| >= 6
              && var found := o.lookup(history, r.calls[0].id).value;
              && var read := |input| - |r.rest|;
              && r.calls[1] == Update(Merge(found, EditsOf(input[read - 5..read]), o.parseInt, o.parseDouble))
              && r.calls[1].student.id == found.id
              && ChangesOnlyToValid(found, r.calls[1].student)
  {
    var r := UpdateFlow(input, o, history);
    var id := IdPrompt(input, o.nextInt);
    UpdateFlowWritesEdits(input, o, history);
    if |r.calls| == 2 {
      var found := o.lookup(history, id.value.value).value;
      var edits := EditsOf(id.rest[..5]);
      MergeChangesOnlyToValid(found, edits, o.parseInt, o.parseDouble);
      var read := |input| - |r.rest|;
      assert input[read - 5..read] == id.rest[..5];
    }
  }

  /** The update flow's facts, stated about an outcome equal to it. */
  lemma UpdateOutcomeFacts(input: seq<string>, o: Oracles, history: seq<Call>,
                           calls: seq<Call>, rest: seq<string>, ended: bool)
    requires Outcome(calls, rest, ended) == UpdateFlow(input, o, history)
    ensures IsSuffix(rest, input) && (ended ==> rest == [])
    ensures |calls| <= 2
    ensures calls == [] ==> ended
    ensures calls != [] ==> calls[0].GetById? && InRange(calls[0].id, 1, IntMax)
    ensures calls != [] && o.lookup(history, calls[0].id).None? ==> |calls| == 1 && !ended
    ensures calls != [] && o.lookup(history, calls[0].id).Some? && !ended ==> |calls| == 2
    ensures |calls| == 2 ==>
              && !ended
              && o.lookup(history, calls[0].id).Some?
              && |input| - |rest| >= 6
              && var found := o.lookup(history, calls[0].id).value;
              && var read := |input| - |rest|;
              && calls[1] == Update(Merge(found, EditsOf(input[read - 5..read]), o.parseInt, o.parseDouble))
              && calls[1].student.id == found.id
              && ChangesOnlyToValid(found, calls[1].student)
  {
    var r := UpdateFlow(input, o, history);
    assert calls == r.calls && rest == r.rest && ended == r.ended;
    UpdateFlowLooksUp(input, o, history);
    UpdateFlowWritesMerge(input, o, history);
  }

  method UpdateStudent(input: seq<string>, o: Oracles, history: seq<Call>)
    returns (calls: seq<Call>, rest: seq<string>, ended: bool)
    ensures Outcome(calls, rest, ended) == UpdateFlow(input, o, history)
    ensures IsSuffix(rest, input) && (ended ==> rest == [])
    ensures |calls| <= 2
    ensures calls == [] ==> ended
    ensures calls != [] ==> calls[0].GetById? && InRange(calls[0].id, 1, IntMax)
    ensures calls != [] && o.lookup(history, calls[0].id).None? ==> |calls| == 1 && !ended
    ensures calls != [] && o.lookup(history, calls[0].id).Some? && !ended ==> |calls| == 2
    ensures |calls| == 2 ==>
              && !ended
              && o.lookup(history, calls[0].id).Some?
              && |input| - |rest| >= 6
              && var found := o.lookup(history, calls[0].id).value;
              && var read := |input| - |rest|;
              && calls[1] == Update(Merge(found, EditsOf(input[read - 5..read]), o.parseInt, o.parseDouble))
              && calls[1].student.id == found.id
              && ChangesOnlyToValid(found, calls[1].student)
  {
    calls, rest, ended := [], [], true;
    label flow: {
      var id, r1 := GetValidIntInput(input, 1, IntMax, o.nextInt);
      if id.None? {
        break flow;
      }
      calls := [GetById(id.value)];
      var found := o.lookup(history, id.value);
      if found.None? {
        rest, ended := r1, false;
        break flow;
      }
      if |r1| < 5 {
        break flow;
      }
      var v := found.value;
      var student := new Student.Stored(v.id, v.name, v.email, v.age, v.gpa, v.enrollmentDate);
      ApplyUpdate(student, EditsOf(r1[..5]), o.parseInt, o.parseDouble);
      calls, rest, ended := calls + [Update(student.Value())], r1[5..], false;
    }
    assert Outcome(calls, rest, ended) == UpdateFlow(input, o, history);
    UpdateOutcomeFacts(input, o, history, calls, rest, ended);
  }

  /** The delete confirmation: the trimmed, lower-cased line is exactly "y". */
  function Confirms(line: string): (yes: bool)
    ensures yes <==> Trim(line) == "y" || Trim(line) == "Y"
  {
    LowerIsY(Trim(line));
    ToLower(Trim(line)) == "y"
  }

  /** " y ", "Y" and "y" confirm; "yes", "n" and "" cancel. */
  lemma ConfirmationExamples()
    ensures Confirms(" y ") && Confirms("Y") && Confirms("y")
    ensures !Confirms("yes") && !Confirms("n") && !Confirms("")
  {
    TrimOfTrimmed("y");
    TrimOfTrimmed("yes");
    TrimOfTrimmed("n");
    assert LeadingCount(" y ") == 1;
    assert TrailingCount("y ") == 1;
  }

  /**
   * deleteStudent: read an id and look it up; when nothing is found, stop
   * without writing and without reading more. Otherwise read the
   * confirmation line and delete only when it confirms.
   */
  function DeleteFlow(input: seq<string>, o: Oracles, history: seq<Call>): (r: Outcome)
    ensures IsSuffix(r.rest, input) && (r.ended ==> r.rest == [])
  {
    var id := IdPrompt(input, o.nextInt);
    if id.value.None? then Outcome([], [], true)
    else if o.lookup(history, id.value.value).None? then Outcome([GetById(id.value.value)], id.rest, false)
    else if id.rest == [] then Outcome([GetById(id.value.value)], [], true)
    else Outcome([GetById(id.value.value)] + (if Confirms(id.rest[0]) then [Delete(id.value.value)] else []),
                 id.rest[1..], false)
  }

  /**
   * The delete flow looks up the id its prompt took. When nothing is found it
   * deletes nothing and reads nothing more; when a record is found it ends
   * only if no line follows the id, and otherwise deletes that id exactly when
   * the line after the id confirms. A run that ends never deletes.
   */
  lemma DeleteFlowGate(input: seq<string>, o: Oracles, history: seq<Call>)
    ensures var r := DeleteFlow(input, o, history);
            var id := IdPrompt(input, o.nextInt);
            && |r.calls| <= 2 && (r.ended ==> |r.calls| <= 1)
            && (r.calls == [] <==> id.value.None?)
            && (r.calls != [] ==> r.calls[0] == GetById(id.value.value) && InRange(r.calls[0].id, 1, IntMax))
            && (r.calls != [] && o.lookup(history, r.calls[0].id).None? ==>
                  |r.calls| == 1 && !r.ended && r.rest == id.rest)
            && (r.calls != [] && o.lookup(history, r.calls[0].id).Some? ==> (r.ended <==> id.rest == []))
            && (|r.calls| == 2 ==> r.calls[1] == Delete(r.calls[0].id) && o.lookup(history, r.calls[0].id).Some?)
            && (r.calls != [] && o.lookup(history, r.calls[0].id).Some? && !r.ended ==>
                  |input| > |r.rest| && (|r.calls| == 2 <==> Confirms(input[|input| - |r.rest| - 1])))
  {
    var r := DeleteFlow(input, o, history);
    var id := IdPrompt(input, o.nextInt);
    if id.value.Some? && id.rest != [] {
      assert input[|input| - |id.rest[1..]| - 1] == id.rest[0];
    }
  }

  method DeleteStudent(input: seq<string>, o: Oracles, history: seq<Call>)
    returns (calls: seq<Call>, rest: seq<string>, ended: bool)
    ensures Outcome(calls, rest, ended) == DeleteFlow(input, o, history)
    ensures IsSuffix(rest, input) && (ended ==> rest == [])
    ensures |calls| <= 2 && (ended ==> |calls| <= 1)
    ensures calls == [] ==> ended
    ensures calls != [] ==> calls[0].GetById? && InRange(calls[0].id, 1, IntMax)
    ensures calls != [] && o.lookup(history, calls[0].id).None? ==> |calls| == 1 && !ended
    ensures |calls| == 2 ==> calls[1] == Delete(calls[0].id) && o.lookup(history, calls[0].id).Some?
    ensures calls != [] && o.lookup(history, calls[0].id).Some? && !ended ==>
              |input| > |rest| && (|calls| == 2 <==> Confirms(input[|input| - |rest| - 1]))
  {
    DeleteFlowGate(input, o, history);
    var id, r1 := GetValidIntInput(input, 1, IntMax, o.nextInt);
    if id.None? {
      return [], [], true;
    }
    calls := [GetById(id.value)];
    if o.lookup(history, id.value).None? {
      return calls, r1, false;
    }
    if r1 == [] {
      return calls, [], true;
    }
    var confirmation := r1[0];
    rest, ended := r1[1..], false;
    if Confirms(confirmation) {
      calls := calls + [Delete(id.value)];
    }
  }

  // ---------------------------------------------------------------------------
  // The main loop
  // ---------------------------------------------------------------------------

  /** One pass of the main loop: the choice read and the gateway calls it led to. */
  datatype Step = Step(choice: int, calls: seq<Call>)

  /** Every gateway call of a run, in order. */
  function CallsOf(trace: seq<Step>): seq<Call> {
    if trace == [] then [] else CallsOf(trace[..|trace| - 1]) + trace[|trace| - 1].calls
  }

  /** What the controller may send to the gateway in one pass, given the calls before it. */
  predicate StepAllowed(step: Step, history: seq<Call>, o: Oracles) {
    var calls := step.calls;
    match CommandOf(step.choice)
    case MenuExit => calls == []
    case MenuInvalid => calls == []
    case MenuViewAll => calls == [GetAll]
    case MenuAdd =>
      calls == [] || (|calls| == 1 && calls[0].Create?
                      && calls[0].student.id == UnsavedId && Admissible(calls[0].student))
    case MenuViewById =>
      calls == [] || (|calls| == 1 && calls[0].GetById? && InRange(calls[0].id, 1, IntMax))
    case MenuSearch =>
      calls == [] || (|calls| == 1 && calls[0].SearchByName? && Trim(calls[0].name) == calls[0].name)
    case MenuUpdate =>
      calls == [] || (calls[0].GetById? && InRange(calls[0].id, 1, IntMax)
                      && (|calls| == 1
                          || (|calls| == 2 && o.lookup(history, calls[0].id).Some? && calls[1].Update?
                              && ChangesOnlyToValid(o.lookup(history, calls[0].id).value, calls[1].student))))
    case MenuDelete =>
      calls == [] || (calls[0].GetById? && InRange(calls[0].id, 1, IntMax)
                      && (|calls| == 1
                          || (|calls| == 2 && o.lookup(history, calls[0].id).Some?
                              && calls[1] == Delete(calls[0].id))))
  }

  /**
   * The switch of main for one choice: the selected flow, or nothing at all
   * for 0 (which exits) and for any number outside 0..6.
   */
  function DispatchFlow(choice: int, input: seq<string>, o: Oracles, history: seq<Call>): (r: Outcome)
    ensures IsSuffix(r.rest, input) && (r.ended ==> r.rest == [])
    ensures choice == 0 ==> r == Outcome([], input, false)
  {
    match CommandOf(choice)
    case MenuExit => Outcome([], input, false)
    case MenuAdd => AddFlow(input, o)
    case MenuViewAll => Outcome([GetAll], input, false)
    case MenuViewById => ViewFlow(input, o)
    case MenuSearch => SearchFlow(input)
    case MenuUpdate => UpdateFlow(input, o, history)
    case MenuDelete => DeleteFlow(input, o, history)
    case MenuInvalid => Outcome([], input, false)
  }

  /** Whatever the choice, one pass sends only what StepAllowed permits. */
  lemma DispatchFlowAllowed(choice: int, input: seq<string>, o: Oracles, history: seq<Call>)
    ensures StepAllowed(Step(choice, DispatchFlow(choice, input, o, history).calls), history, o)
  {
    match CommandOf(choice)
    case MenuAdd => AddFlowCreatesAdmissible(input, o);
    case MenuViewById => ViewFlowLooksUpTakenId(input, o);
    case MenuUpdate => UpdateFlowLooksUp(input, o, history); UpdateFlowWritesMerge(input, o, history);
    case MenuDelete => DeleteFlowGate(input, o, history);
    case _ =>
  }

  method Dispatch(choice: int, input: seq<string>, o: Oracles, history: seq<Call>)
    returns (calls: seq<Call>, rest: seq<string>, ended: bool, exit: bool)
    ensures Outcome(calls, rest, ended) == DispatchFlow(choice, input, o, history)
    ensures IsSuffix(rest, input) && (ended ==> rest == [])
    ensures exit <==> choice == 0
    ensures exit ==> !ended
    ensures StepAllowed(Step(choice, calls), history, o)
  {
    DispatchFlowAllowed(choice, input, o, history);
    calls, rest, ended, exit := [], input, false, false;
    match CommandOf(choice) {
      case MenuExit =>
        exit := true;
      case MenuAdd =>
        calls, rest, ended := AddStudent(input, o);
      case MenuViewAll =>
        calls := [GetAll];
      case MenuViewById =>
        calls, rest, ended := ViewStudentById(input, o);
      case MenuSearch =>
        calls, rest, ended := SearchStudentsByName(input);
      case MenuUpdate =>
        calls, rest, ended := UpdateStudent(input, o, history);
      case MenuDelete =>
        calls, rest, ended := DeleteStudent(input, o, history);
      case MenuInvalid =>
    }
  }

  /** Every pass of a run is allowed, given the calls of the passes before it. */
  predicate TraceAllowed(trace: seq<Step>, o: Oracles) {
    trace == []
    || (TraceAllowed(trace[..|trace| - 1], o)
        && StepAllowed(trace[|trace| - 1], CallsOf(trace[..|trace| - 1]), o))
  }

  /** TraceAllowed, pass by pass. */
  lemma {:induction false} TraceAllowedEach(trace: seq<Step>, o: Oracles)
    requires TraceAllowed(trace, o)
    ensures forall i :: 0 <= i < |trace| ==> StepAllowed(trace[i], CallsOf(trace[..i]), o)
  {
    if trace != [] {
      var front := trace[..|trace| - 1];
      TraceAllowedEach(front, o);
      forall i | 0 <= i < |trace| ensures StepAllowed(trace[i], CallsOf(trace[..i]), o) {
        if i < |front| {
          assert trace[i] == front[i] && trace[..i] == front[..i];
        }
      }
    }
  }

  /** How a run ends: the passes made, whether the user chose 0, and the unread lines. */
  datatype RunResult = RunResult(trace: seq<Step>, exited: bool, rest: seq<string>)

  /** One pass of the menu: the choice read, the lines after the choice line and the calls before it. */
  type Pass = (int, seq<string>, seq<Call>) -> Outcome

  /** A pass leaves a suffix of the lines it is given. */
  ghost predicate ReadsForward(pass: Pass) {
    forall choice, lines, history :: IsSuffix(pass(choice, lines, history).rest, lines)
  }

  /**
   * The shape of the main loop, for any way of reading a choice and making a
   * pass: read a choice line, make the pass with every earlier call as its
   * history, and stop on 0; after any other choice read the line that answers
   * "Press Enter to continue". The loop stops early only when the input runs out.
   */
  function Loop(input: seq<string>, choose: string -> int, pass: Pass, trace: seq<Step>, history: seq<Call>): (r: RunResult)
    requires ReadsForward(pass)
    ensures IsSuffix(r.rest, input) && (!r.exited ==> r.rest == [])
    ensures |trace| <= |r.trace| && forall i :: 0 <= i < |trace| ==> r.trace[i] == trace[i]
    decreases |input|
  {
    if input == [] then RunResult(trace, false, [])
    else
      var choice := choose(input[0]);
      var out := pass(choice, input[1..], history);
      var passes := trace + [Step(choice, out.calls)];
      if choice == 0 then RunResult(passes, true, out.rest)
      else if out.ended || out.rest == [] then RunResult(passes, false, [])
      else
        var r := Loop(out.rest[1..], choose, pass, passes, history + out.calls);
        assert forall i :: 0 <= i < |trace| ==> passes[i] == trace[i];
        r
  }

  /** No pass of `trace` read the choice 0. */
  predicate NoExitChoice(trace: seq<Step>) {
    forall i :: 0 <= i < |trace| ==> trace[i].choice != 0
  }

  /**
   * A loop continued from passes without an exit exits exactly when its last
   * choice is 0, and that is the only 0 it reads.
   */
  lemma {:induction false} LoopExits(input: seq<string>, choose: string -> int, pass: Pass, trace: seq<Step>, history: seq<Call>)
    requires ReadsForward(pass) && NoExitChoice(trace)
    ensures var r := Loop(input, choose, pass, trace, history);
            && (r.exited <==> |r.trace| > 0 && r.trace[|r.trace| - 1].choice == 0)
            && forall i :: 0 <= i < |r.trace| - 1 ==> r.trace[i].choice != 0
    decreases |input|
  {
    if input != [] {
      var choice := choose(input[0]);
      var out := pass(choice, input[1..], history);
      var passes := trace + [Step(choice, out.calls)];
      if choice != 0 && !out.ended && out.rest != [] {
        assert NoExitChoice(passes) by {
          assert passes[|trace|] == Step(choice, out.calls);
        }
        LoopExits(out.rest[1..], choose, pass, passes, history + out.calls);
      }
    }
  }

  /** The pass of main: the switch on the choice, over the gateway the oracles stand for. */
  function MenuPass(o: Oracles): (r: Pass)
    ensures ReadsForward(r)
  {
    (choice, lines, history) => DispatchFlow(choice, lines, o, history)
  }

  /** The choice reading of main: getUserChoice over the scanner's nextInt. */
  function MenuChoice(o: Oracles): string -> int {
    line => UserChoice(line, o.nextInt)
  }

  /** The main loop as a function of the unread lines, after the passes in `trace`, whose gateway calls were `history`. */
  function RunFrom(input: seq<string>, o: Oracles, trace: seq<Step>, history: seq<Call>): RunResult {
    Loop(input, MenuChoice(o), MenuPass(o), trace, history)
  }

  /** The session as main runs it: from the first line, with no pass and no call before it. */
  function Session(input: seq<string>, o: Oracles): RunResult {
    RunFrom(input, o, [], [])
  }

  /** A first line that reads as 0 exits at once, with nothing sent to the gateway. */
  lemma ZeroFirstExits(input: seq<string>, o: Oracles)
    requires input != [] && o.nextInt(input[0]) == Some(0)
    ensures Session(input, o) == RunResult([Step(0, [])], true, input[1..])
  {
  }

  /** A run continued from allowed passes makes only allowed passes. */
  lemma {:induction false} RunFromAllowed(input: seq<string>, o: Oracles, trace: seq<Step>, history: seq<Call>)
    requires TraceAllowed(trace, o) && history == CallsOf(trace)
    ensures TraceAllowed(RunFrom(input, o, trace, history).trace, o)
    decreases |input|
  {
    if input != [] {
      var choice := UserChoice(input[0], o.nextInt);
      var out := DispatchFlow(choice, input[1..], o, history);
      var passes := trace + [Step(choice, out.calls)];
      DispatchFlowAllowed(choice, input[1..], o, history);
      assert passes[..|trace|] == trace;
      if choice != 0 && !out.ended && out.rest != [] {
        RunFromAllowed(out.rest[1..], o, passes, history + out.calls);
      }
    }
  }

  /**
   * A session reads forward, stops early only when the input runs out, exits
   * exactly when its last choice is 0, and sends only allowed calls.
   */
  lemma SessionFacts(input: seq<string>, o: Oracles)
    ensures var r := Session(input, o);
            && IsSuffix(r.rest, input)
            && (!r.exited ==> r.rest == [])
            && (r.exited <==> |r.trace| > 0 && r.trace[|r.trace| - 1].choice == 0)
            && (forall i :: 0 <= i < |r.trace| - 1 ==> r.trace[i].choice != 0)
            && TraceAllowed(r.trace, o)
  {
    RunFromAllowed(input, o, [], []);
    LoopExits(input, MenuChoice(o), MenuPass(o), [], []);
  }

  /**
   * main: show the menu, read a choice and dispatch it until the choice is 0;
   * after every other choice, wait for Enter.
   */
  method Run(input: seq<string>, o: Oracles) returns (trace: seq<Step>, exited: bool, rest: seq<string>)
    ensures RunResult(trace, exited, rest) == Session(input, o)
    ensures IsSuffix(rest, input)
    ensures !exited ==> rest == []
    ensures exited <==> |trace| > 0 && trace[|trace| - 1].choice == 0
    ensures forall i :: 0 <= i < |trace| - 1 ==> trace[i].choice != 0
    ensures TraceAllowed(trace, o)
  {
    ghost var session := Session(input, o);
    rest, trace, exited := input, [], false;
    var history := [];
    while true
      invariant !exited
      invariant RunFrom(rest, o, trace, history) == session
      decreases |rest|
    {
      if rest == [] {
        break;
      }
      var choice := UserChoice(rest[0], o.nextInt);
      assert MenuChoice(o)(rest[0]) == choice;
      var calls, after, ended, exit := Dispatch(choice, rest[1..], o, history);
      assert MenuPass(o)(choice, rest[1..], history) == Outcome(calls, after, ended);
      trace, history := trace + [Step(choice, calls)], history + calls;
      if exit {
        exited, rest := true, after;
        break;
      }
      // "Press Enter to continue..."
      if ended || after == [] {
        rest := [];
        break;
      }
      rest := after[1..];
    }
    assert RunResult(trace, exited, rest) == session;
    SessionFacts(input, o);
  }
}
