/** The newsletter signup form on the home page and in the footer: a client-side check of the
    address, then a local success state (the form has no backend call). */
module NewsletterForm {
  import opened Text
  import opened Email

  datatype Status = Idle | Success | Failure

  const RequiredMessage := "Email address is required."
  const InvalidMessage := "Please enter a valid email address."

  /** `validate(value)`: "" when the value may be submitted, otherwise the message to show. The
      required check looks at the trimmed value, the pattern at the raw one. */
  function Validate(value: string): (r: string)
    ensures IsBlank(value) ==> r == RequiredMessage
    ensures !IsBlank(value) && !MatchesPattern(value) ==> r == InvalidMessage
    ensures r == "" <==> MatchesPattern(value)
  {
    TrimEmptyIffBlank(value);
    ValidEmailIffPattern(value);
    if Trim(value) == "" then RequiredMessage
    else if !IsValidEmail(value) then InvalidMessage
    else (ValidEmailShape(value); "")
  }

  /** An address with white space around it is not blank, yet fails the pattern. */
  lemma PaddingFailsPattern(value: string)
    requires !IsBlank(value)
    requires IsSpace(value[0]) || IsSpace(value[|value| - 1])
    ensures Validate(value) == InvalidMessage
  {
    ValidEmailIffPattern(value);
    if IsValidEmail(value) {
      ValidEmailShape(value);
    }
  }

  class SignupForm {
    var email: string
    var status: Status
    var errorMsg: string

    /** An error always has a message; a success has cleared the field and the message. */
    predicate Valid()
      reads this
    {
      && (status == Failure ==> errorMsg != "")
      && (status == Success ==> email == "" && errorMsg == "")
    }

    constructor ()
      ensures Valid()
      ensures email == "" && status == Idle && errorMsg == ""
    {
      email, status, errorMsg := "", Idle, "";
    }

    /** The input's `onChange`. */
    method Edit(value: string)
      requires Valid()
      modifies this
      ensures Valid()
      ensures email == value && status == Idle && errorMsg == ""
    {
      email := value;
      status := Idle;
      errorMsg := "";
    }

    /** `handleSubmit`: an address failing the check is kept and its message shown; one passing it
        clears the form into the success state. */
    method Submit()
      requires Valid()
      modifies this
      ensures Valid()
      ensures Validate(old(email)) != "" ==> status == Failure && errorMsg == Validate(old(email)) && email == old(email)
      ensures Validate(old(email)) == "" ==> status == Success && email == "" && errorMsg == ""
    {
      var err := Validate(email);
      assert err == Validate(old(email));
      if err != "" {
        errorMsg := err;
        status := Failure;
        return;
      }
      status := Success;
      email := "";
      errorMsg := "";
    }
  }
}
