/** The patient record of user.h: a class whose setters update its fields in place
    (`setId` is how the repository hands back the generated key), and its value as a row. */
module Patient {
  import opened Common

  /** Every column of one patient, as the record and the `users` table hold it. */
  datatype UserRow = UserRow(
    id: int,
    firstName: string,
    lastName1: string,
    lastName2: string,
    gender: string,
    birthDate: Date,
    activityLevel: string,
    goal: string,
    createdAt: DateTime)

  /** The id of a patient that has not been stored yet. */
  const UnsavedId: int := -1

  class User {
    var id: int
    var firstName: string
    var lastName1: string
    var lastName2: string
    var gender: string
    var birthDate: Date
    var activityLevel: string
    var goal: string
    var createdAt: DateTime

    /** The record's fields as one value. */
    function Value(): UserRow
      reads this
    {
      UserRow(id, firstName, lastName1, lastName2, gender, birthDate, activityLevel, goal, createdAt)
    }

    /** A patient read back from storage: all nine fields as given. */
    constructor (id: int, firstName: string, lastName1: string, lastName2: string, gender: string,
                 birthDate: Date, activityLevel: string, goal: string, createdAt: DateTime)
      ensures Value() == UserRow(id, firstName, lastName1, lastName2, gender, birthDate,
                                 activityLevel, goal, createdAt)
    {
      this.id, this.firstName, this.lastName1, this.lastName2 := id, firstName, lastName1, lastName2;
      this.gender, this.birthDate := gender, birthDate;
      this.activityLevel, this.goal, this.createdAt := activityLevel, goal, createdAt;
    }

    /** A new patient: the unsaved id and a null creation time, the seven data fields as given. */
    constructor New(firstName: string, lastName1: string, lastName2: string, gender: string,
                    birthDate: Date, activityLevel: string, goal: string)
      ensures Value() == UserRow(UnsavedId, firstName, lastName1, lastName2, gender, birthDate,
                                 activityLevel, goal, NullDateTime)
    {
      this.id, this.firstName, this.lastName1, this.lastName2 := UnsavedId, firstName, lastName1, lastName2;
      this.gender, this.birthDate := gender, birthDate;
      this.activityLevel, this.goal, this.createdAt := activityLevel, goal, NullDateTime;
    }

    method SetId(id: int)
      modifies this
      ensures Value() == old(Value()).(id := id)
    {
      this.id := id;
    }

    method SetFirstName(firstName: string)
      modifies this
      ensures Value() == old(Value()).(firstName := firstName)
    {
      this.firstName := firstName;
    }

    method SetLastName1(lastName1: string)
      modifies this
      ensures Value() == old(Value()).(lastName1 := lastName1)
    {
      this.lastName1 := lastName1;
    }

    method SetLastName2(lastName2: string)
      modifies this
      ensures Value() == old(Value()).(lastName2 := lastName2)
    {
      this.lastName2 := lastName2;
    }

    method SetGender(gender: string)
      modifies this
      ensures Value() == old(Value()).(gender := gender)
    {
      this.gender := gender;
    }

    method SetBirthDate(birthDate: Date)
      modifies this
      ensures Value() == old(Value()).(birthDate := birthDate)
    {
      this.birthDate := birthDate;
    }

    method SetActivityLevel(activityLevel: string)
      modifies this
      ensures Value() == old(Value()).(activityLevel := activityLevel)
    {
      this.activityLevel := activityLevel;
    }

    method SetGoal(goal: string)
      modifies this
      ensures Value() == old(Value()).(goal := goal)
    {
      this.goal := goal;
    }

    method SetCreatedAt(createdAt: DateTime)
      modifies this
      ensures Value() == old(Value()).(createdAt := createdAt)
    {
      this.createdAt := createdAt;
    }
  }
}
