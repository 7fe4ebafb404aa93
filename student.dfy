/**
 * The Student record: a mutable object with six private fields, three
 * constructors, and one getter and one setter per field.
 */
module StudentRecord {

  /** The six fields of a Student at one moment. */
  datatype StudentValue = StudentValue(
    id: int,
    name: string,
    email: string,
    age: int,
    gpa: real,
    enrollmentDate: string)

  /** The id a Student has before the database assigns one. */
  const UnsavedId := 0

  class Student {
    var id: int
    var name: string
    var email: string
    var age: int
    var gpa: real
    var enrollmentDate: string

    /** The current contents of all six fields. */
    function Value(): StudentValue
      reads this
    {
      StudentValue(id, name, email, age, gpa, enrollmentDate)
    }

    /** The no-argument constructor: id, age and GPA keep their Java default 0; the three strings are "" in place of null. */
    constructor Default()
      ensures Value() == StudentValue(UnsavedId, "", "", 0, 0.0, "")
    {
      id, name, email, age, gpa, enrollmentDate := UnsavedId, "", "", 0, 0.0, "";
    }

    /** The constructor for a student not yet stored: the id stays at its default. */
    constructor Unsaved(name: string, email: string, age: int, gpa: real, enrollmentDate: string)
      ensures Value() == StudentValue(UnsavedId, name, email, age, gpa, enrollmentDate)
      ensures GetId() == UnsavedId && GetName() == name && GetEmail() == email
      ensures GetAge() == age && GetGpa() == gpa && GetEnrollmentDate() == enrollmentDate
    {
      this.id := UnsavedId;
      this.name := name;
      this.email := email;
      this.age := age;
      this.gpa := gpa;
      this.enrollmentDate := enrollmentDate;
    }

    /** The constructor for a student read back from the database. */
    constructor Stored(id: int, name: string, email: string, age: int, gpa: real, enrollmentDate: string)
      ensures Value() == StudentValue(id, name, email, age, gpa, enrollmentDate)
      ensures GetId() == id && GetName() == name && GetEmail() == email
      ensures GetAge() == age && GetGpa() == gpa && GetEnrollmentDate() == enrollmentDate
    {
      this.id := id;
      this.name := name;
      this.email := email;
      this.age := age;
      this.gpa := gpa;
      this.enrollmentDate := enrollmentDate;
    }

    function GetId(): int
      reads this
    {
      id
    }

    function GetName(): string
      reads this
    {
      name
    }

    function GetEmail(): string
      reads this
    {
      email
    }

    function GetAge(): int
      reads this
    {
      age
    }

    function GetGpa(): real
      reads this
    {
      gpa
    }

    function GetEnrollmentDate(): string
      reads this
    {
      enrollmentDate
    }

    method SetId(id: int)
      modifies this
      ensures Value() == old(Value()).(id := id)
      ensures GetId() == id
    {
      this.id := id;
    }

    method SetName(name: string)
      modifies this
      ensures Value() == old(Value()).(name := name)
      ensures GetName() == name
    {
      this.name := name;
    }

    method SetEmail(email: string)
      modifies this
      ensures Value() == old(Value()).(email := email)
      ensures GetEmail() == email
    {
      this.email := email;
    }

    method SetAge(age: int)
      modifies this
      ensures Value() == old(Value()).(age := age)
      ensures GetAge() == age
    {
      this.age := age;
    }

    method SetGpa(gpa: real)
      modifies this
      ensures Value() == old(Value()).(gpa := gpa)
      ensures GetGpa() == gpa
    {
      this.gpa := gpa;
    }

    method SetEnrollmentDate(enrollmentDate: string)
      modifies this
      ensures Value() == old(Value()).(enrollmentDate := enrollmentDate)
      ensures GetEnrollmentDate() == enrollmentDate
    {
      this.enrollmentDate := enrollmentDate;
    }
  }
}
