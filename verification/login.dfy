/**
 The login page's submit handler: a presence check on the two fields with
 no trimming and no format check, followed by a stub success alert.
 */
module Login {
  import opened Text
  import ProfessorNavbar

  /** `email`, `password` and `error` as held by the page. */
  datatype LoginForm = LoginForm(email: string, password: string, error: string)

  /** The message shown when a field is empty. */
  const MissingCredentialsError := "Please enter both email and password."

  /** The alert shown on the success path. */
  const SuccessAlert := "Logged in! (stub)"

  /** The form after the handler ran, and the alerts it showed. */
  datatype LoginOutcome = LoginOutcome(form: LoginForm, alerts: seq<string>)

  /** `handleSubmit`: rejects when either field is the empty string,
      otherwise clears the error and shows the success alert once. */
  function HandleSubmit(f: LoginForm): (o: LoginOutcome)
    ensures o.alerts == [] <==> f.email == "" || f.password == ""
    ensures o.alerts == [] ==> o.form == f.(error := MissingCredentialsError)
    ensures o.alerts != [] ==> o.alerts == [SuccessAlert] && o.form == f.(error := "")
  {
    if f.email == "" || f.password == "" then
      LoginOutcome(f.(error := MissingCredentialsError), [])
    else
      LoginOutcome(f.(error := ""), [SuccessAlert])
  }

  /** The outcome depends on the fields only through their emptiness: two
      forms whose fields are empty in the same places get the same error and
      the same alerts, whatever the text (so no e-mail format is checked). */
  lemma OnlyEmptinessMatters(f: LoginForm, g: LoginForm)
    requires (f.email == "") == (g.email == "")
    requires (f.password == "") == (g.password == "")
    ensures HandleSubmit(f).alerts == HandleSubmit(g).alerts
    ensures HandleSubmit(f).form.error == HandleSubmit(g).form.error
  {
  }

  /** Whitespace is not trimmed: a form whose fields are only whitespace
      logs in. */
  lemma WhitespaceCredentialsAccepted(email: string, password: string)
    requires email != "" && password != ""
    requires AllWhitespace(email) && AllWhitespace(password)
    ensures HandleSubmit(LoginForm(email, password, "")).alerts == [SuccessAlert]
  {
  }

  /** The two validators differ on whitespace: a single space passes the
      login check but is rejected as a course name. */
  lemma LoginDoesNotTrimButCourseFormDoes()
    ensures HandleSubmit(LoginForm(" ", " ", "")).alerts == [SuccessAlert]
    ensures var s := ProfessorNavbar.NavState(false, true, " ", "");
            var o := ProfessorNavbar.Step(s, ProfessorNavbar.Submit, true);
            o.effects == [] && o.state.error == ProfessorNavbar.EmptyNameError
  {
    var s := ProfessorNavbar.NavState(false, true, " ", "");
    assert AllWhitespace(s.courseName);
  }
}
