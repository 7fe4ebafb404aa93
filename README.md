# Student Management System — a Dafny model of its controller and record type

The Java program is a console CRUD manager for student records stored in one
table. This project models the two parts of it that have behaviour of their own:

- `Student` (src/Student.java): a mutable record with six fields, three
  constructors, and a getter and a setter per field. Modelled as the class
  `StudentRecord.Student`, with `Value()` giving all six fields at once so that
  each constructor and setter can say exactly what it sets and what it leaves alone.
- The interactive controller (src/StudentManagementApp.java):
  - the validators `isValidEmail` and `isValidDate` (module `Validation`), with
    the regular expressions' exact, lenient meaning;
  - the retry prompts (`getValidIntInput`, `getValidDoubleInput` and the
    name, email and date loops);
  - the add, view, search, update and delete flows;
  - the field-by-field update merge (module `UpdateRule`), applied in place
    through the Student's setters;
  - the delete confirmation gate;
  - the main menu loop.

Console input is a sequence of lines not yet read. Each flow takes it and
returns what is left. When the lines run out, Java's Scanner throws and the
program stops; the model reports that as `ended`. The database gateway
(`StudentDAO`) is an oracle. The flows return the gateway calls they issue, as
`Controller.Call` values. The answer to a lookup by id is
`lookup(history, id)`, where `history` holds every call issued before it, so
the answer may depend on earlier writes. The four number readers are oracles
too, one each: `nextInt` and `nextDouble` (the Scanner, used by the menu, the
add-time age and GPA prompts, and the id prompts of the view, update and
delete flows) and `parseInt` and `parseDouble` (`Integer.parseInt`
and `Double.parseDouble`, used by the update flow). Each returns `None` where
Java throws.

`java.lang.String.trim` and the ASCII part of `toLowerCase` are modelled in
`JavaText`, because the controller trims every line it reads with `nextLine`,
and lower-cases the delete confirmation line. The lines read with `nextInt` and
`nextDouble` (the menu choice, the age, the GPA and the ids) are not trimmed:
they go to the number-reading oracles as they are.

Main results:
- `IsValidEmail` accepts exactly the strings the pattern `^[A-Za-z0-9+_.-]+@(.+)$`
  matches. The pattern splits at the first `@`, and the domain may contain more
  `@` and no dot.
- `IsValidDate` accepts the three ASCII digit groups of `^\d{4}-\d{2}-\d{2}$` and
  does not check that the date exists.
- Retry prompts only ever return an accepted value: for the integer prompts, a
  value between min and max inclusive.
- An update changes a field only to a value that field's validator accepts. The
  update flow's `0 < age <= 120` is the add flow's `1..120`. The id is never
  changed. A record that passes every validator still passes them after an update.
- The update and delete flows write nothing when the lookup finds nothing.
- A delete is issued only when the trimmed line is `y` or `Y`.
- The main loop exits exactly at choice 0. Any other number, including the `-1`
  for non-numeric input, continues; without a 0 the loop stops only when the
  input runs out. Every pass sends the gateway only what its
  menu entry allows.

## Model

| member | source | states |
|---|---|---|
| `StudentRecord.Student.Default` | src/Student.java:13-14 | the no-argument constructor leaves id 0, numbers 0 and (see Left out) strings empty |
| `StudentRecord.Student.Unsaved` | src/Student.java:17-23 | the five-argument constructor sets the five named fields to its arguments and leaves the id at the unsaved value 0; each getter then returns its argument |
| `StudentRecord.Student.Stored` | src/Student.java:26-33 | the six-argument constructor sets every field to its argument, and each getter then returns that argument |
| `StudentRecord.Student.SetId` | src/Student.java:40-42 | changes the id only, leaves the other five fields unchanged; `GetId` then returns the new id |
| `StudentRecord.Student.SetName` | src/Student.java:48-50 | changes the name only; the other five fields are unchanged; `GetName` returns the value set |
| `StudentRecord.Student.SetEmail` | src/Student.java:56-58 | changes the email only; the other five fields are unchanged; `GetEmail` returns the value set |
| `StudentRecord.Student.SetAge` | src/Student.java:64-66 | changes the age only; the other five fields are unchanged; `GetAge` returns the value set |
| `StudentRecord.Student.SetGpa` | src/Student.java:72-74 | changes the GPA only; the other five fields are unchanged; `GetGpa` returns the value set |
| `StudentRecord.Student.SetEnrollmentDate` | src/Student.java:80-82 | changes the enrollment date only; the other five fields are unchanged; `GetEnrollmentDate` returns the value set |
| `JavaText.Trim` | src/StudentManagementApp.java:213 | trim() of a line is empty exactly when every character of the line is at or below U+0020; otherwise it starts and ends with a character above U+0020 |
| `JavaText.TrimIsSlice` | src/StudentManagementApp.java:213 | trim() returns the characters that follow the ones it drops from the front |
| `JavaText.TrimDropsTrailing` | src/StudentManagementApp.java:213 | what follows the trimmed text is all at or below U+0020 |
| `JavaText.TrimIsInfix` | src/StudentManagementApp.java:213 | trim() returns an infix of the line and removes only characters at or below U+0020, from the two ends |
| `JavaText.TrimIdempotent` | src/StudentManagementApp.java:100 | trimming an already trimmed line changes nothing, so the names the add flow stores are trimmed |
| `JavaText.ToLower` | src/StudentManagementApp.java:295 | toLowerCase: each character lower-cased on its own, 'A'..'Z' to 'a'..'z' and every other character unchanged |
| `JavaText.LowerIsY` | src/StudentManagementApp.java:295 | the only strings whose lower-case form is "y" are "y" and "Y" |
| `Validation.IsValidEmail` | src/StudentManagementApp.java:361-364 | isValidEmail as a scan: the longest leading run of `[A-Za-z0-9+_.-]` is not empty, is followed by '@', and at least one character follows, none a line terminator |
| `Validation.LocalPartLength` | src/StudentManagementApp.java:363 | the greedy `[A-Za-z0-9+_.-]+` run: every character in it is in the class and the character after it is not |
| `Validation.EmailScanMatchesPattern` | src/StudentManagementApp.java:361-364 | isValidEmail holds exactly when some '@' at position k > 0 has only local-part characters before it and at least one character after it, none of them a line terminator |
| `Validation.EmailSplitsAtFirstAt` | src/StudentManagementApp.java:363 | in an accepted email the local part ends at the first '@'; later '@' belong to the domain |
| `Validation.EmailExamples` | src/StudentManagementApp.java:361-364 | "a@b", "a@b@c" and "a@b.c" are accepted; "@b.c", "a@" and "abc" are rejected |
| `Validation.IsValidDate` | src/StudentManagementApp.java:369-371 | isValidDate: ten characters, with ASCII digits at positions 0-3, 5-6 and 8-9 and '-' at 4 and 7 |
| `Validation.DateGroups` | src/StudentManagementApp.java:369-371 | isValidDate holds exactly when the string is four ASCII digits, '-', two digits, '-', two digits |
| `Validation.DateFromGroups` | src/StudentManagementApp.java:369-371 | any 4, 2 and 2 ASCII digits joined by dashes are accepted, so month and day are not range-checked |
| `Validation.DateExamples` | src/StudentManagementApp.java:369-371 | "2024-01-31" and "2024-13-45" are accepted; "24-01-31" and "2024/01/31" are rejected |
| `Validation.AgeExamples` | src/StudentManagementApp.java:115 | the add flow's age bound takes 1 and 120 and refuses 0 and 121 |
| `Validation.GpaExamples` | src/StudentManagementApp.java:116 | the add flow's GPA bound takes 0.0 and 4.0 and refuses -0.1 and 4.1 |
| `UpdateRule.Merge` | src/StudentManagementApp.java:196-266 | the record updateStudent writes back: the fetched id, and each of the five fields merged from its own input line under that field's check |
| `UpdateRule.MergeText` | src/StudentManagementApp.java:212-226 | a text field either keeps its value (always so for a blank line or a line the field's check refuses) or becomes the trimmed, non-blank line, which then passes the check; a non-blank line whose trimmed form passes the check always replaces it |
| `UpdateRule.MergeNumber` | src/StudentManagementApp.java:228-256 | a numeric field either keeps its value (always so for a blank line) or becomes the value parsed from the trimmed line, which then passes the range test; a non-blank line that parses to an accepted value always replaces it |
| `UpdateRule.UpdateName` | src/StudentManagementApp.java:212-216 | the name setter runs only for a non-blank line; no other field changes |
| `UpdateRule.UpdateEmail` | src/StudentManagementApp.java:218-226 | the email setter runs only for a non-blank line that passes isValidEmail; no other field changes |
| `UpdateRule.UpdateAge` | src/StudentManagementApp.java:228-241 | the age setter runs only for a non-blank line that parses to an age with 0 < age <= 120; no other field changes |
| `UpdateRule.UpdateGpa` | src/StudentManagementApp.java:243-256 | the GPA setter runs only for a non-blank line that parses to a GPA in 0.0..4.0; no other field changes |
| `UpdateRule.UpdateEnrollmentDate` | src/StudentManagementApp.java:258-266 | the date setter runs only for a non-blank line that passes isValidDate; no other field changes |
| `UpdateRule.ApplyUpdate` | src/StudentManagementApp.java:212-266 | after the five edits the fetched Student holds exactly the merged record, and its id is untouched |
| `UpdateRule.MergeChangesOnlyToValid` | src/StudentManagementApp.java:212-266 | the update keeps the id, and each field either keeps its value or gets a value that the add flow would accept: 0 < age <= 120 is the same bound as 1..120 |
| `UpdateRule.MergePreservesAdmissible` | src/StudentManagementApp.java:196-275 | a record that passes every add-time validator still passes them all after an update |
| `UpdateRule.MergeTextFields` | src/StudentManagementApp.java:212-266 | per text field: a blank line keeps the value, an invalid line keeps it, a valid line replaces it with the trimmed line; any non-blank name is valid |
| `UpdateRule.MergeNumberFields` | src/StudentManagementApp.java:228-256 | age and GPA change only to the parsed, in-range value of a non-blank line, and such a value always replaces them; a blank or unparsable line keeps them |
| `UpdateRule.MergeAllBlank` | src/StudentManagementApp.java:210-266 | pressing Enter at all five prompts leaves the record as fetched |
| `UpdateRule.MergeIdempotent` | src/StudentManagementApp.java:212-266 | entering the same five lines again changes nothing more |
| `Controller.CommandOf` | src/StudentManagementApp.java:25-50 | 0 and only 0 is Exit; every number outside 0..6 is invalid |
| `Controller.MenuNumber` | src/StudentManagementApp.java:66-76 | each operation has a menu number in 0..6 |
| `Controller.MenuNumbering` | src/StudentManagementApp.java:25-50 | menu numbers 0..6 and the seven operations correspond one to one |
| `Controller.NonNumericChoiceIsInvalid` | src/StudentManagementApp.java:81-90 | a non-numeric line gives -1, which is an invalid choice and does not exit |
| `Controller.UserChoice` | src/StudentManagementApp.java:81-90 | getUserChoice: the number nextInt reads from the line, or -1 when the line is not a number |
| `Controller.Prompt` | src/StudentManagementApp.java:313-332 | the re-prompt loop as a function of the unread lines: skip lines until one parses to an accepted value, take it and return the lines after it; nothing when the lines run out |
| `Controller.PromptTakesFirst` | src/StudentManagementApp.java:313-332 | a re-prompt loop takes the first line that parses to an accepted value and refuses every line before it; it returns nothing only when it refused every line |
| `Controller.ReadUntilAccepted` | src/StudentManagementApp.java:313-332 | the loop returns what the re-prompt function gives for the same lines: the parsed value of the first accepted line, every earlier line refused, nothing only when the input runs out after refusing every line |
| `Controller.IntPrompt` | src/StudentManagementApp.java:313-332 | the integer prompt returns only a value in min..max, bounds included |
| `Controller.GetValidIntInput` | src/StudentManagementApp.java:313-332 | the value returned lies in min..max, bounds included, is what the last line read parses to, and every earlier line was unparsable or out of range |
| `Controller.RealPrompt` | src/StudentManagementApp.java:337-356 | the GPA prompt returns only a value in min..max, bounds included |
| `Controller.GetValidRealInput` | src/StudentManagementApp.java:337-356 | the same as GetValidIntInput, for the GPA prompt on reals |
| `Controller.LinePrompt` | src/StudentManagementApp.java:100-105 | the text prompt returns only a trimmed line that passes its check |
| `Controller.ReadValidLine` | src/StudentManagementApp.java:100-124 | the name, email and date loops return the trimmed form of the last line read, which passes the check; every earlier line failed the check once trimmed |
| `Controller.AddFlow` | src/StudentManagementApp.java:95-135 | addStudent as a function of the unread lines: the name, e-mail, age, GPA and date prompts in turn, then one create of the unsaved Student they spell; the flow ends with nothing created when a prompt runs out of lines |
| `Controller.AddFlowOnAcceptedLines` | src/StudentManagementApp.java:95-129 | five lines that the five prompts accept, in order, create exactly the unsaved Student with the trimmed name, e-mail and date and the age and GPA the scanner reads from them, and leave the lines after them unread |
| `Controller.AddFlowCreatesAdmissible` | src/StudentManagementApp.java:95-129 | the add flow ends exactly when it creates nothing, and what it creates is one Student with the unsaved id whose every field passes its validator |
| `Controller.AddStudent` | src/StudentManagementApp.java:95-135 | the method issues exactly the calls of the add flow for the same input: one create of a Student with the unsaved id whose every field passes its validator, or nothing when the input runs out |
| `Controller.ViewFlow` | src/StudentManagementApp.java:158-170 | viewStudentById as a function of the unread lines: the id prompt over 1..Integer.MAX_VALUE, then one lookup of that id |
| `Controller.ViewFlowLooksUpTakenId` | src/StudentManagementApp.java:158-170 | the view flow looks up exactly the number on the line its prompt took, which is in 1..Integer.MAX_VALUE; it ends only when no line held such a number |
| `Controller.ViewStudentById` | src/StudentManagementApp.java:158-170 | the method issues the calls of the view flow: one lookup with an id in 1..Integer.MAX_VALUE, or nothing when the input runs out |
| `Controller.SearchFlow` | src/StudentManagementApp.java:175-191 | the search flow sends one search with the next line trimmed, possibly empty, and ends only when no line is left |
| `Controller.SearchStudentsByName` | src/StudentManagementApp.java:175-191 | the method issues the calls of the search flow: one search with the trimmed next line |
| `Controller.UpdateFlow` | src/StudentManagementApp.java:196-275 | updateStudent as a function of the unread lines: the id prompt and a lookup; on a miss nothing more; on a hit the five edit lines and one write of the merged record |
| `Controller.UpdateFlowLooksUp` | src/StudentManagementApp.java:196-206 | the update flow looks up the id its prompt took; when nothing is found it writes nothing and reads nothing more; when a record is found it ends exactly when fewer than five lines follow the id, and otherwise writes once |
| `Controller.UpdateFlowWritesEdits` | src/StudentManagementApp.java:196-266 | the write is the merge of the record found with the five lines after the id, and the flow goes on after those five lines |
| `Controller.UpdateFlowWritesMerge` | src/StudentManagementApp.java:196-275 | the write is the merge of the record found with the last five lines read, keeps the fetched id, and changes no field to a value its validator refuses |
| `Controller.UpdateOutcomeFacts` | src/StudentManagementApp.java:196-275 | any outcome equal to the update flow has at most two calls; it ends without calls only when no id was read; a missing record means one lookup and no write; a found record means a write unless the input ran out; the write is the merge of the record found with the last five lines read, keeps the fetched id, and changes no field to a value its validator refuses |
| `Controller.UpdateStudent` | src/StudentManagementApp.java:196-275 | the method issues exactly the calls of the update flow: a lookup first; no write when it finds nothing; otherwise the one write is the merge of the fetched record with the next five lines, with the fetched id |
| `Controller.Confirms` | src/StudentManagementApp.java:295-297 | the confirmation holds exactly when the trimmed line is "y" or "Y" |
| `Controller.ConfirmationExamples` | src/StudentManagementApp.java:294-307 | " y ", "Y" and "y" confirm; "yes", "n" and "" cancel |
| `Controller.DeleteFlow` | src/StudentManagementApp.java:280-308 | deleteStudent as a function of the unread lines: the id prompt and a lookup; on a miss nothing more; on a hit the confirmation line and, when it confirms, the delete of that id |
| `Controller.DeleteFlowGate` | src/StudentManagementApp.java:280-308 | the delete flow looks up the id its prompt took; when nothing is found it deletes nothing and reads nothing more; when a record is found it ends exactly when no line follows the id, and otherwise deletes that id exactly when the line after it confirms; a flow that ends never deletes |
| `Controller.DeleteStudent` | src/StudentManagementApp.java:280-308 | the method issues exactly the calls of the delete flow: a lookup first, no delete when it finds nothing, and the delete of that id exactly when the confirmation line confirms |
| `Controller.DispatchFlow` | src/StudentManagementApp.java:25-50 | the switch reads forward, and a choice of 0 reads nothing and sends nothing |
| `Controller.DispatchFlowAllowed` | src/StudentManagementApp.java:25-50 | whatever the choice, one pass sends the gateway only the calls its menu entry allows |
| `Controller.Dispatch` | src/StudentManagementApp.java:25-50 | the switch issues exactly the calls of the selected flow, sets exit exactly for 0, and sends only what that entry allows |
| `Controller.TraceAllowedEach` | src/StudentManagementApp.java:21-56 | in an allowed run, every pass is allowed given the calls made before it |
| `Controller.Loop` | src/StudentManagementApp.java:21-56 | the loop reads forward, stops without exiting only when the input runs out, and keeps the passes made before it |
| `Controller.LoopExits` | src/StudentManagementApp.java:21-56 | the loop exits exactly when the last choice read is 0, and no earlier choice was 0 |
| `Controller.RunFrom` | src/StudentManagementApp.java:21-56 | the main loop continued from earlier passes: the loop with getUserChoice as its choice reader and the switch as its pass |
| `Controller.Session` | src/StudentManagementApp.java:12-61 | main's session: the main loop from the first line, with no pass and no gateway call before it |
| `Controller.ZeroFirstExits` | src/StudentManagementApp.java:21-47 | a first line that reads as 0 exits at once, with nothing sent to the gateway |
| `Controller.RunFromAllowed` | src/StudentManagementApp.java:21-56 | continued from allowed passes, the loop makes only allowed passes |
| `Controller.SessionFacts` | src/StudentManagementApp.java:12-61 | a session reads forward, exits exactly at its first 0, sends only allowed calls, and consumes all its input when it does not exit |
| `Controller.Run` | src/StudentManagementApp.java:12-61 | the method's passes, exit flag and unread lines are those of the session for the same input; it exits exactly when a choice of 0 is read, no earlier choice was 0, every pass is allowed, and a run that does not exit has consumed all its input |

## Left out

- src/StudentDAO.java is not part of this model. The gateway is the oracle `lookup`, and each flow returns the calls it makes. The SQL semantics are not modelled: LIKE matching, generated keys, rows affected, and the round-trip properties of create, update and delete followed by a lookup all belong to the database.
- The id that `createStudent` writes back with `setId` after the insert is not modelled; it happens inside the DAO.
- The success flags that create, update and delete return are not modelled: the controller only prints a different message for them.
- src/DatabaseConnection.java is not part of this model. It holds the connection singleton, driver loading and credentials.
- All console output is left out: the menu text, prompts, error messages, "Press Enter" text and `Student.toString`. Only the lines the program consumes are modelled.
- Closing the Scanner and the connection on exit is left out; it is resource release with no state the model keeps.
- Input is consumed line by line. `Scanner.nextInt`/`nextDouble` are modelled as a parse of the whole line followed by `nextLine`. Two token-level effects are not modelled: `nextInt` skips blank lines, and a line can hold several tokens.
- Integer parsing and its overflow are the `nextInt` and `parseInt` oracles. `Integer.MAX_VALUE` is the constant `IntMax`. The model's ints are unbounded, but nothing in the core does arithmetic on ints, so 32-bit wrap-around cannot arise.
- GPA is a `real`, not an IEEE `double`. `Scanner.nextDouble` and `Double.parseDouble` are the `nextDouble` and `parseDouble` oracles. NaN and infinities are not represented. NaN fails both range tests, so for the merge it behaves like a parse failure.
- `toLowerCase` is modelled for ASCII letters only. In Unicode no character other than `Y` lower-cases to `y`, so this does not change the delete gate.
- `StudentRecord.Student.Default`: Java leaves the three String fields null. The model has no null strings and uses "" instead.
- `Controller.UpdateStudent`: Java reads each of the five lines and then applies that field's edit before reading the next. The model reads all five lines first and then applies them in the same order. The Student is local to the flow, so the two orders cannot be told apart.
- `Controller.Run`: the per-pass guarantee (`StepAllowed`) records whether a delete or update happened. It does not record which edit lines or confirmation line caused it. `Controller.UpdateFlowWritesMerge` and `Controller.DeleteFlowGate` state those for each flow, and `Run` returns exactly the passes of `Controller.Session`, which runs those flows on the same lines.
