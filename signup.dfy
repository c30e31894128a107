/** The sign-up form: field validation, and the error and loading state around the sign-up call. */
module Signup {
  import opened Support

  const UsernameTooShort := "Username must be at least 3 characters"
  const PasswordTooShort := "Password must be at least 6 characters"
  const SignupFailed := "Failed to create account"

  /** The first validation message, username before password; None when both pass. */
  function ValidateSignup(username: string, password: string): (r: Option<string>)
    ensures r.None? <==> |username| >= 3 && |password| >= 6
    ensures |username| < 3 ==> r == Some(UsernameTooShort)
    ensures |username| >= 3 && |password| < 6 ==> r == Some(PasswordTooShort)
  {
    if |username| < 3 then Some(UsernameTooShort)
    else if |password| < 6 then Some(PasswordTooShort)
    else None
  }

  /** `err.message || 'Failed to create account'`: the failure is never shown as an empty message. */
  function FailureMessage(message: string): (r: string)
    ensures r != ""
    ensures message != "" ==> r == message
    ensures message == "" ==> r == SignupFailed
  {
    if message != "" then message else SignupFailed
  }

  class SignupForm {
    var email: string
    var password: string
    var username: string
    var loading: bool
    var error: string

    constructor ()
      ensures email == "" && password == "" && username == "" && !loading && error == ""
    {
      email, password, username, loading, error := "", "", "", false, "";
    }

    method SetEmail(value: string)
      modifies this`email
      ensures email == value
    {
      email := value;
    }

    method SetPassword(value: string)
      modifies this`password
      ensures password == value
    {
      password := value;
    }

    method SetUsername(value: string)
      modifies this`username
      ensures username == value
    {
      username := value;
    }

    /**
     * handleSubmit: clears the error, validates, and only then calls
     * signUp, whose thrown message (if any) is `signUpError`. Every path ends
     * with `loading` false; the error shown is the first validation message,
     * else the sign-up failure, else nothing.
     */
    method HandleSubmit(signUpError: Option<string>) returns (signUpCalled: bool)
      modifies this`loading, this`error
      ensures !loading
      ensures signUpCalled <==> ValidateSignup(username, password).None?
      ensures !signUpCalled ==> error == ValidateSignup(username, password).value
      ensures signUpCalled && signUpError.Some? ==> error == FailureMessage(signUpError.value)
      ensures signUpCalled && signUpError.None? ==> error == ""
    {
      error := "";
      loading := true;
      if |username| < 3 {
        error := UsernameTooShort;
        loading := false;
        return false;
      }
      if |password| < 6 {
        error := PasswordTooShort;
        loading := false;
        return false;
      }
      signUpCalled := true;
      if signUpError.Some? {
        error := FailureMessage(signUpError.value);
      }
      loading := false;
    }
  }
}
