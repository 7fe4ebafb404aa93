/**
 * The field-by-field merge of the update flow: the fetched Student is edited
 * in place, one setter per field, from five console lines.
 */
module UpdateRule {
  import opened Wrappers
  import opened JavaText
  import opened StudentRecord
  import opened Validation

  /** The five lines read for name, email, age, GPA and enrollment date, untrimmed. */
  datatype Edits = Edits(name: string, email: string, age: string, gpa: string, enrollmentDate: string)

  /** The age test of the update flow, written as the source writes it. */
  predicate AcceptsUpdatedAge(age: int) {
    age > 0 && age <= 120
  }

  predicate AcceptsUpdatedGpa(gpa: real) {
    gpa >= 0.0 && gpa <= 4.0
  }

  /** A text field: blank keeps, otherwise the trimmed line replaces when it passes `valid`. */
  function MergeText(current: string, line: string, valid: string -> bool): (r: string)
    ensures r == current || (r == Trim(line) && r != "" && valid(r) && Trim(r) == r)
    ensures IsBlank(line) ==> r == current
    ensures !IsBlank(line) && valid(Trim(line)) ==> r == Trim(line)
    ensures !valid(Trim(line)) ==> r == current
  {
    var t := Trim(line);
    TrimIdempotent(line);
    if t == "" then current
    else if valid(t) then t
    else current
  }

  /** A numeric field: blank keeps, and so does a line that does not parse or is out of range. */
  function MergeNumber<T>(current: T, line: string, parse: string -> Option<T>, accept: T -> bool): (r: T)
    ensures r == current || (!IsBlank(line) && parse(Trim(line)) == Some(r) && accept(r))
    ensures IsBlank(line) ==> r == current
    ensures !IsBlank(line) && parse(Trim(line)).Some? && accept(parse(Trim(line)).value) ==>
              r == parse(Trim(line)).value
  {
    var t := Trim(line);
    if t == "" then current
    else match parse(t)
      case None => current
      case Some(v) => if accept(v) then v else current
  }

  /**
   * The record after the update flow has applied all five edits. `parseInt` and
   * `parseDouble` stand for Integer.parseInt and Double.parseDouble, None where
   * they throw NumberFormatException.
   */
  function Merge(current: StudentValue, e: Edits,
                 parseInt: string -> Option<int>, parseDouble: string -> Option<real>): StudentValue
  {
    StudentValue(
      current.id,
      MergeText(current.name, e.name, _ => true),
      MergeText(current.email, e.email, IsValidEmail),
      MergeNumber(current.age, e.age, parseInt, AcceptsUpdatedAge),
      MergeNumber(current.gpa, e.gpa, parseDouble, AcceptsUpdatedGpa),
      MergeText(current.enrollmentDate, e.enrollmentDate, IsValidDate))
  }

  /**
   * updateStudent's edits, applied to the fetched Student through its setters;
   * no setter runs for a field whose input is blank or rejected.
   */
  method ApplyUpdate(s: Student, e: Edits,
                     parseInt: string -> Option<int>, parseDouble: string -> Option<real>)
    modifies s
    ensures s.Value() == Merge(old(s.Value()), e, parseInt, parseDouble)
    ensures s.GetId() == old(s.GetId())
  {
    UpdateName(s, e.name);
    UpdateEmail(s, e.email);
    UpdateAge(s, e.age, parseInt);
    UpdateGpa(s, e.gpa, parseDouble);
    UpdateEnrollmentDate(s, e.enrollmentDate);
  }

  /** Any non-blank name is accepted. */
  method UpdateName(s: Student, line: string)
    modifies s
    ensures s.Value() == old(s.Value()).(name := MergeText(old(s.Value()).name, line, _ => true))
  {
    var name := Trim(line);
    if name != "" {
      s.SetName(name);
    }
  }

  /** A non-blank email is accepted only if isValidEmail holds; otherwise it is reported and dropped. */
  method UpdateEmail(s: Student, line: string)
    modifies s
    ensures s.Value() == old(s.Value()).(email := MergeText(old(s.Value()).email, line, IsValidEmail))
  {
    var email := Trim(line);
    if email != "" {
      if IsValidEmail(email) {
        s.SetEmail(email);
      }
    }
  }

  /** A non-blank age is accepted if Integer.parseInt succeeds and 0 < age <= 120. */
  method UpdateAge(s: Student, line: string, parseInt: string -> Option<int>)
    modifies s
    ensures s.Value() == old(s.Value()).(age := MergeNumber(old(s.Value()).age, line, parseInt, AcceptsUpdatedAge))
  {
    var ageText := Trim(line);
    if ageText != "" {
      match parseInt(ageText)
      case Some(age) =>
        if age > 0 && age <= 120 {
          s.SetAge(age);
        }
      case None =>
    }
  }

  /** A non-blank GPA is accepted if Double.parseDouble succeeds and 0.0 <= gpa <= 4.0. */
  method UpdateGpa(s: Student, line: string, parseDouble: string -> Option<real>)
    modifies s
    ensures s.Value() == old(s.Value()).(gpa := MergeNumber(old(s.Value()).gpa, line, parseDouble, AcceptsUpdatedGpa))
  {
    var gpaText := Trim(line);
    if gpaText != "" {
      match parseDouble(gpaText)
      case Some(gpa) =>
        if gpa >= 0.0 && gpa <= 4.0 {
          s.SetGpa(gpa);
        }
      case None =>
    }
  }

  /** A non-blank enrollment date is accepted only if isValidDate holds. */
  method UpdateEnrollmentDate(s: Student, line: string)
    modifies s
    ensures s.Value() == old(s.Value()).(enrollmentDate := MergeText(old(s.Value()).enrollmentDate, line, IsValidDate))
  {
    var enrollmentDate := Trim(line);
    if enrollmentDate != "" {
      if IsValidDate(enrollmentDate) {
        s.SetEnrollmentDate(enrollmentDate);
      }
    }
  }

  /**
   * Each field of `after` is either the field of `before` or a value its
   * validator accepts, and the id is the same.
   */
  predicate ChangesOnlyToValid(before: StudentValue, after: StudentValue) {
    && after.id == before.id
    && (after.name == before.name || IsValidName(after.name))
    && (after.email == before.email || IsValidEmail(after.email))
    && (after.age == before.age || IsValidAge(after.age))
    && (after.gpa == before.gpa || IsValidGpa(after.gpa))
    && (after.enrollmentDate == before.enrollmentDate || IsValidDate(after.enrollmentDate))
  }

  /**
   * An update never writes a value the add flow would have refused: the
   * 0 < age <= 120 test of the update flow is the 1..120 bound of the add flow.
   */
  lemma MergeChangesOnlyToValid(current: StudentValue, e: Edits,
                                parseInt: string -> Option<int>, parseDouble: string -> Option<real>)
    ensures ChangesOnlyToValid(current, Merge(current, e, parseInt, parseDouble))
  {
  }

  /** A record that passes every validator still does after an update. */
  lemma MergePreservesAdmissible(current: StudentValue, e: Edits,
                                 parseInt: string -> Option<int>, parseDouble: string -> Option<real>)
    requires Admissible(current)
    ensures Admissible(Merge(current, e, parseInt, parseDouble))
  {
    MergeChangesOnlyToValid(current, e, parseInt, parseDouble);
  }

  /**
   * The rule for each text field: the field changes only to the trimmed input
   * line, and only when that line is not blank and passes the field's
   * validator (any non-blank name passes); otherwise it is left as it was.
   */
  lemma MergeTextFields(current: StudentValue, e: Edits,
                        parseInt: string -> Option<int>, parseDouble: string -> Option<real>)
    ensures var r := Merge(current, e, parseInt, parseDouble);
            && (r.name == if IsBlank(e.name) then current.name else Trim(e.name))
            && (r.email == if !IsBlank(e.email) && IsValidEmail(Trim(e.email)) then Trim(e.email) else current.email)
            && (r.enrollmentDate == if !IsBlank(e.enrollmentDate) && IsValidDate(Trim(e.enrollmentDate))
                                    then Trim(e.enrollmentDate) else current.enrollmentDate)
  {
  }

  /**
   * The rule for the numeric fields: a field changes only to the parsed value of
   * a non-blank line, and only when that value is in range; a blank line, a
   * line that does not parse or an out-of-range value leaves it as it was, and
   * an in-range parsed value always replaces it.
   */
  lemma MergeNumberFields(current: StudentValue, e: Edits,
                          parseInt: string -> Option<int>, parseDouble: string -> Option<real>)
    ensures var r := Merge(current, e, parseInt, parseDouble);
            && (r.age != current.age ==>
                  !IsBlank(e.age) && parseInt(Trim(e.age)) == Some(r.age) && IsValidAge(r.age))
            && (IsBlank(e.age) || parseInt(Trim(e.age)).None? ==> r.age == current.age)
            && (!IsBlank(e.age) && parseInt(Trim(e.age)).Some? && IsValidAge(parseInt(Trim(e.age)).value) ==>
                  r.age == parseInt(Trim(e.age)).value)
            && (r.gpa != current.gpa ==>
                  !IsBlank(e.gpa) && parseDouble(Trim(e.gpa)) == Some(r.gpa) && IsValidGpa(r.gpa))
            && (IsBlank(e.gpa) || parseDouble(Trim(e.gpa)).None? ==> r.gpa == current.gpa)
            && (!IsBlank(e.gpa) && parseDouble(Trim(e.gpa)).Some? && IsValidGpa(parseDouble(Trim(e.gpa)).value) ==>
                  r.gpa == parseDouble(Trim(e.gpa)).value)
  {
  }

  /** Five blank lines leave the record exactly as fetched. */
  lemma MergeAllBlank(current: StudentValue, e: Edits,
                      parseInt: string -> Option<int>, parseDouble: string -> Option<real>)
    requires IsBlank(e.name) && IsBlank(e.email) && IsBlank(e.age) && IsBlank(e.gpa) && IsBlank(e.enrollmentDate)
    ensures Merge(current, e, parseInt, parseDouble) == current
  {
  }

  /** Entering the same five lines a second time changes nothing more. */
  lemma MergeIdempotent(current: StudentValue, e: Edits,
                        parseInt: string -> Option<int>, parseDouble: string -> Option<real>)
    ensures var once := Merge(current, e, parseInt, parseDouble);
            Merge(once, e, parseInt, parseDouble) == once
  {
  }
}
