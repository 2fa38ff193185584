/** The contact form (app/contact/page.tsx): four text fields and the
    submitting/submitted flags. The 1.5 second simulated send is an explicit
    `TimerDone` step. */
module ContactForm {

  datatype Field = Name | Email | Subject | Message

  datatype FormState = FormState(
    name: string,
    email: string,
    subject: string,
    message: string,
    isSubmitting: bool,
    isSubmitted: bool)

  /** Empty fields, neither flag set. */
  const Initial := FormState("", "", "", "", false, false)

  function Get(s: FormState, f: Field): string {
    match f
    case Name => s.name
    case Email => s.email
    case Subject => s.subject
    case Message => s.message
  }

  /** `handleInputChange(field, value)`: that field changes, nothing else. */
  function InputChange(s: FormState, f: Field, v: string): (r: FormState)
    ensures Get(r, f) == v
    ensures forall g | g != f :: Get(r, g) == Get(s, g)
    ensures r.isSubmitting == s.isSubmitting && r.isSubmitted == s.isSubmitted
  {
    match f
    case Name => s.(name := v)
    case Email => s.(email := v)
    case Subject => s.(subject := v)
    case Message => s.(message := v)
  }

  predicate IsAlnum(c: char) {
    'a' <= c <= 'z' || 'A' <= c <= 'Z' || '0' <= c <= '9'
  }

  /** A character allowed before the `@` of a valid e-mail address. */
  predicate IsLocalChar(c: char) {
    IsAlnum(c) || c in ".!#$%&'*+/=?^_`{|}~-"
  }

  predicate ValidLocal(l: string) {
    |l| > 0 && forall i | 0 <= i < |l| :: IsLocalChar(l[i])
  }

  /** A domain label: 1 to 63 letters, digits and hyphens, starting and ending
      with a letter or digit. */
  predicate ValidLabel(l: string) {
    && 1 <= |l| <= 63
    && IsAlnum(l[0]) && IsAlnum(l[|l| - 1])
    && forall i | 0 <= i < |l| :: IsAlnum(l[i]) || l[i] == '-'
  }

  /** The position of the first dot, or the length when there is none. */
  function DotIndex(d: string): (k: nat)
    ensures k <= |d|
    ensures k < |d| ==> d[k] == '.'
    ensures forall j | 0 <= j < k :: d[j] != '.'
  {
    if |d| == 0 then 0
    else if d[0] == '.' then 0
    else 1 + DotIndex(d[1..])
  }

  /** One or more labels separated by dots. */
  predicate ValidDomain(d: string)
    decreases |d|
  {
    var k := DotIndex(d);
    ValidLabel(d[..k]) && (k == |d| || ValidDomain(d[k + 1..]))
  }

  /** The check an `<input type="email">` applies before the form may be
      submitted (the "valid e-mail address" of the HTML standard, section
      4.10.5.1.5): a non-empty local part, one `@`, then dot-separated labels. */
  function ValidEmail(e: string): (r: bool)
    ensures r ==> exists i | 0 < i < |e| - 1 :: e[i] == '@'
  {
    exists i | 0 <= i < |e| && e[i] == '@' :: ValidLocal(e[..i]) && ValidDomain(e[i + 1..])
  }

  /** An address with nothing after the `@` is not valid. */
  lemma MissingDomainInvalid()
    ensures !ValidEmail("your@")
  {
    var e := "your@";
    assert DotIndex("") == 0;
    assert !ValidDomain("");
    forall i | 0 <= i < |e| && e[i] == '@'
      ensures !(ValidLocal(e[..i]) && ValidDomain(e[i + 1..]))
    {
      assert i == 4 && e[i + 1..] == "";
    }
  }

  /** A label made only of lower-case letters is a valid label. */
  lemma LetterLabel(l: string)
    requires 1 <= |l| <= 63 && forall i | 0 <= i < |l| :: 'a' <= l[i] <= 'z'
    ensures ValidLabel(l)
  {
  }

  lemma ComDomain()
    ensures ValidDomain("com")
  {
    assert DotIndex("com") == 3 by {
      assert "com"[1..] == "om" && "om"[1..] == "m" && "m"[1..] == "";
    }
    assert "com"[..3] == "com";
    LetterLabel("com");
  }

  lemma EmailDotIndex()
    ensures DotIndex("email.com") == 5
  {
    assert DotIndex(".com") == 0;
    assert "l.com"[1..] == ".com";
    assert DotIndex("l.com") == 1;
    assert "il.com"[1..] == "l.com";
    assert DotIndex("il.com") == 2;
    assert "ail.com"[1..] == "il.com";
    assert DotIndex("ail.com") == 3;
    assert "mail.com"[1..] == "ail.com";
    assert DotIndex("mail.com") == 4;
    assert "email.com"[1..] == "mail.com";
  }

  lemma EmailComDomain()
    ensures ValidDomain("email.com")
  {
    var d := "email.com";
    EmailDotIndex();
    assert d[..5] == "email" && d[6..] == "com";
    LetterLabel("email");
    ComDomain();
  }

  /** The address in the email field's placeholder is valid. */
  lemma PlaceholderEmailValid()
    ensures ValidEmail("your@email.com")
  {
    var e := "your@email.com";
    assert e[4] == '@' && e[5..] == "email.com" && e[..4] == "your";
    assert ValidLocal("your");
    EmailComDomain();
  }

  /** The browser fires the form's submit handler only when every `required`
      field (name, email, message) is non-empty and the email is valid. */
  predicate CanSubmit(s: FormState) {
    s.name != "" && ValidEmail(s.email) && s.message != ""
  }

  /** A press of "Send Message". On a form that passes the browser's checks,
      `handleSubmit` marks it as sending and keeps the fields; on any other form
      the handler does not run and nothing changes. */
  function Submit(s: FormState): (r: FormState)
    ensures r.isSubmitting <==> s.isSubmitting || CanSubmit(s)
    ensures !CanSubmit(s) ==> r == s
    ensures r.isSubmitted == s.isSubmitted
    ensures forall f :: Get(r, f) == Get(s, f)
  {
    if CanSubmit(s) then s.(isSubmitting := true) else s
  }

  /** The form the page opens with is not sent: the browser stops it. */
  lemma InitialNotSent()
    ensures !CanSubmit(Initial)
    ensures Submit(Initial) == Initial && SubmitEnabled(Submit(Initial))
  {
  }

  /** The submit button is disabled while a send is in flight. */
  function SubmitEnabled(s: FormState): (r: bool)
    ensures r <==> !s.isSubmitting
  {
    !s.isSubmitting
  }

  /** The timeout callback: sending ends, the form reports success, and all
      four fields are cleared. */
  function TimerDone(s: FormState): (r: FormState)
    ensures !r.isSubmitting && r.isSubmitted
    ensures forall f :: Get(r, f) == ""
  {
    FormState("", "", "", "", false, true)
  }

  /** "Send Another Message": back to the form, nothing else changes. */
  function SendAnother(s: FormState): (r: FormState)
    ensures !r.isSubmitted
    ensures r.isSubmitting == s.isSubmitting && forall f :: Get(r, f) == Get(s, f)
  {
    s.(isSubmitted := false)
  }

  /** After a submit the browser lets through, the button stays disabled,
      whatever is typed, until the send completes. */
  lemma SubmitDisabledWhileSending(s: FormState, f: Field, v: string)
    requires CanSubmit(s)
    ensures !SubmitEnabled(Submit(s))
    ensures !SubmitEnabled(InputChange(Submit(s), f, v))
    ensures SubmitEnabled(TimerDone(Submit(s)))
  {
  }

  /** A completed send followed by "Send Another Message" leaves an empty
      form ready for input, whichever valid form was sent. */
  lemma SendCycleReturnsToInitial(s: FormState)
    requires CanSubmit(s)
    ensures SendAnother(TimerDone(Submit(s))) == Initial
    ensures SubmitEnabled(SendAnother(TimerDone(Submit(s))))
  {
  }
}
