/**
 * The teacher registration page: the form, its two validation rules, the
 * record sent to the server and what a successful sign-up stores in the
 * browser.  The server call is an outcome given to the page; the records it
 * sent and the two storage entries are kept as page state.
 */
module Register {
  import opened Wrappers
  import Text

  datatype Form = Form(fullName: string, email: string, password: string, confirmPassword: string, schoolName: string)

  /** The inputs of the form, by their `name` attribute. */
  datatype Field = FullName | Email | Password | ConfirmPassword | SchoolName

  const EmptyForm := Form("", "", "", "", "")

  const MismatchMessage := "Passwords do not match"
  const LengthMessage := "Password must be at least 6 characters long"
  const FailureMessage := "Registration failed. Please try again."
  const MinPasswordLength := 6

  /** `handleChange`: the named input takes the new value, the others keep theirs. */
  function WithField(f: Form, field: Field, value: string): (g: Form)
    ensures g.fullName == if field == FullName then value else f.fullName
    ensures g.email == if field == Email then value else f.email
    ensures g.password == if field == Password then value else f.password
    ensures g.confirmPassword == if field == ConfirmPassword then value else f.confirmPassword
    ensures g.schoolName == if field == SchoolName then value else f.schoolName
  {
    match field
    case FullName => f.(fullName := value)
    case Email => f.(email := value)
    case Password => f.(password := value)
    case ConfirmPassword => f.(confirmPassword := value)
    case SchoolName => f.(schoolName := value)
  }

  /**
   * The validation of `handleSubmit`: a mismatch is reported first, even for a
   * short password; matching passwords shorter than six UTF-16 units are
   * reported next; otherwise the form passes.
   */
  function Validate(f: Form): (r: Option<string>)
    ensures r == Some(MismatchMessage) <==> f.password != f.confirmPassword
    ensures r == Some(LengthMessage) <==>
      f.password == f.confirmPassword && Text.Utf16Length(f.password) < MinPasswordLength
    ensures r == None <==>
      f.password == f.confirmPassword && Text.Utf16Length(f.password) >= MinPasswordLength
  {
    if f.password != f.confirmPassword then Some(MismatchMessage)
    else if Text.Utf16Length(f.password) < MinPasswordLength then Some(LengthMessage)
    else None
  }

  /** The user sent to the server and stored after a sign-up. */
  datatype UserRecord = UserRecord(
    fullName: string,
    email: string,
    password: string,
    schoolName: string,
    role: string,
    plan: string,
    testsCreated: int,
    createdAt: string)

  /**
   * The record built from the form: the four entered fields, a free teacher
   * account with no tests, created at `createdAt`; the confirmation is not sent.
   */
  function NewUser(f: Form, createdAt: string): (u: UserRecord)
    ensures u.fullName == f.fullName && u.email == f.email && u.password == f.password
    ensures u.schoolName == f.schoolName && u.createdAt == createdAt
    ensures u.role == "teacher" && u.plan == "free" && u.testsCreated == 0
  {
    UserRecord(f.fullName, f.email, f.password, f.schoolName, "teacher", "free", 0, createdAt)
  }

  /** A password of fewer than three characters never passes: it has at most four UTF-16 units. */
  lemma ShortPasswordRejected(f: Form)
    requires |f.password| < 3
    ensures Validate(f).Some?
  {
  }

  class RegisterPage {
    var form: Form
    var error: string
    var isLoading: bool
    var success: bool
    /** The records posted to the server, oldest first. */
    var sent: seq<UserRecord>
    /** The `currentUser` and `isAuthenticated` entries of local storage. */
    var storedUser: Option<UserRecord>
    var storedAuthenticated: Option<string>

    constructor ()
      ensures form == EmptyForm && error == "" && !isLoading && !success
      ensures sent == [] && storedUser == None && storedAuthenticated == None
    {
      form := EmptyForm;
      error := "";
      isLoading := false;
      success := false;
      sent := [];
      storedUser := None;
      storedAuthenticated := None;
    }

    /** `handleChange` on the page's form. */
    method Change(field: Field, value: string)
      modifies this
      ensures form == WithField(old(form), field, value)
      ensures error == old(error) && isLoading == old(isLoading) && success == old(success)
      ensures sent == old(sent) && storedUser == old(storedUser) && storedAuthenticated == old(storedAuthenticated)
    {
      form := WithField(form, field, value);
    }

    /**
     * `handleSubmit`.  A form that fails validation shows its message and
     * sends and stores nothing.  A valid form is sent once; when the server
     * accepts it the user and the authenticated flag are stored and the page
     * succeeds, and when it refuses nothing is stored and the failure message
     * shows.  Loading always ends, and the form is kept.
     */
    method HandleSubmit(createdAt: string, serverAccepts: bool)
      modifies this
      ensures form == old(form) && !isLoading
      ensures Validate(old(form)).Some? ==>
        error == Validate(old(form)).value && sent == old(sent) && success == old(success) &&
        storedUser == old(storedUser) && storedAuthenticated == old(storedAuthenticated)
      ensures Validate(old(form)).None? ==> sent == old(sent) + [NewUser(old(form), createdAt)]
      ensures Validate(old(form)).None? && serverAccepts ==>
        error == "" && success &&
        storedUser == Some(NewUser(old(form), createdAt)) && storedAuthenticated == Some("true")
      ensures Validate(old(form)).None? && !serverAccepts ==>
        error == FailureMessage && success == old(success) &&
        storedUser == old(storedUser) && storedAuthenticated == old(storedAuthenticated)
    {
      error := "";
      isLoading := true;
      if form.password != form.confirmPassword {
        error := MismatchMessage;
        isLoading := false;
        return;
      }
      if Text.Utf16Length(form.password) < MinPasswordLength {
        error := LengthMessage;
        isLoading := false;
        return;
      }
      var userData := NewUser(form, createdAt);
      sent := sent + [userData];
      if serverAccepts {
        storedUser := Some(userData);
        storedAuthenticated := Some("true");
        success := true;
      } else {
        error := FailureMessage;
      }
      isLoading := false;
    }
  }
}
