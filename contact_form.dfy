/** The contact form (script.js:74-183): four-field validation with per-field
    error messages, and a submission lock that blocks re-entrant submits
    until a 1800 ms cooldown ends. The cooldown timer is the explicit event
    `CooldownExpire`. */
module ContactForm {
  import opened Text
  import opened Email
  import Modal

  /** The four inputs, by their element ids `name`, `email`, `subject`,
      `message`. */
  datatype Field = NameInput | EmailInput | SubjectInput | MessageInput

  /** The values of the four inputs. */
  datatype Form = Form(name: string, email: string, subject: string, message: string)

  function Value(v: Form, f: Field): string
  {
    match f
    case NameInput => v.name
    case EmailInput => v.email
    case SubjectInput => v.subject
    case MessageInput => v.message
  }

  /** The text `showError` puts in each field's error span. */
  function ErrorText(f: Field): string
  {
    match f
    case NameInput => "Name is required"
    case EmailInput => "Valid email is required"
    case SubjectInput => "Subject is required"
    case MessageInput => "Message is required"
  }

  /** The message the success modal shows after a submission. */
  const SuccessMessage: string :=
    "\U{2728} Thank you! Your message has been sent successfully. I'll get back to you soon!"

  /** The form after `contactForm.reset()`: every field back to its (empty)
      default value. */
  const EmptyForm: Form := Form("", "", "", "")

  /** Does field `f` fail its check? Name, subject and message must be
      non-blank once trimmed; the email must be non-blank once trimmed and
      its untrimmed value must pass `isValidEmail`. */
  predicate Fails(v: Form, f: Field)
  {
    match f
    case EmailInput => IsBlank(v.email) || !IsValidEmail(v.email)
    case _ => IsBlank(Value(v, f))
  }

  /** The fields the handler marks with an error; every check runs, none
      short-circuits. */
  function FieldErrors(v: Form): (r: set<Field>)
    ensures forall f :: f in r <==> Fails(v, f)
  {
    set f | f in {NameInput, EmailInput, SubjectInput, MessageInput} && Fails(v, f)
  }

  /** The error spans shown after validating `v`, with their text. */
  function ErrorMap(v: Form): (m: map<Field, string>)
    ensures m.Keys == FieldErrors(v)
    ensures forall f :: f in m ==> m[f] == ErrorText(f)
  {
    map f | f in FieldErrors(v) :: ErrorText(f)
  }

  /** An address `isValidEmail` accepts is never blank, so the handler's
      `trim() === ''` test on the email adds nothing. */
  lemma ValidEmailNotBlank(s: string)
    ensures IsValidEmail(s) ==> !IsBlank(s)
  {
    BlankIffAllSpace(s);
    if IsValidEmail(s) {
      var at := IndexOf(s, '@');
      assert s[at + 1..][0] == s[at + 1];
      assert !IsSpace(s[at + 1]);
    }
  }

  /** The email field is marked exactly when `isValidEmail` rejects it. */
  lemma EmailErrorIffInvalid(v: Form)
    ensures EmailInput in FieldErrors(v) <==> !IsValidEmail(v.email)
  {
    ValidEmailNotBlank(v.email);
  }

  /** With a well-formed or blank address, leaving any set of fields blank
      marks exactly that set. */
  lemma ErrorsAreBlankFields(v: Form, blank: set<Field>)
    requires forall f :: f in blank <==> IsBlank(Value(v, f))
    requires !IsBlank(v.email) ==> IsValidEmail(v.email)
    ensures FieldErrors(v) == blank
  {
    EmailErrorIffInvalid(v);
    forall f ensures f in FieldErrors(v) <==> f in blank {
      assert f in blank <==> IsBlank(Value(v, f));
    }
  }

  /** `ErrorMap(v)` is the one map with the failing fields as keys, each
      mapped to its message. */
  lemma ErrorMapIsUnique(m: map<Field, string>, v: Form)
    requires forall f :: f in m <==> Fails(v, f)
    requires forall f :: f in m ==> m[f] == ErrorText(f)
    ensures m == ErrorMap(v)
  {
  }

  class FormController {
    /** The page's success modal, which `submitForm` shows. */
    const modal: Modal.SuccessModal
    /** The form holds a `button[type="submit"]`. */
    const hasSubmitButton: bool
    /** `window.isSubmitting`, the submission lock. */
    var isSubmitting: bool
    /** The submit button is disabled (also `aria-disabled`, dimmed). */
    var buttonDisabled: bool
    /** The 1800 ms re-enable timer is scheduled. */
    var cooldownPending: bool
    /** What the four inputs hold. */
    var values: Form
    /** The error spans shown, each with its text (a shown span also means
        a red border on its input). */
    var errors: map<Field, string>
    /** The payloads handed to `submitForm`, in order. */
    var submitted: seq<Form>

    /** The lock is set exactly while the cooldown is pending, and a button
        that exists is disabled exactly while the lock is set. */
    ghost predicate Valid()
      reads this, modal
    {
      && modal.Valid()
      && (cooldownPending <==> isSubmitting)
      && buttonDisabled == (hasSubmitButton && isSubmitting)
    }

    constructor (modal: Modal.SuccessModal, hasSubmitButton: bool)
      requires modal.Valid()
      ensures Valid() && this.modal == modal && this.hasSubmitButton == hasSubmitButton
      ensures !isSubmitting && values == EmptyForm && errors == map[] && submitted == []
    {
      this.modal := modal;
      this.hasSubmitButton := hasSubmitButton;
      isSubmitting, buttonDisabled, cooldownPending := false, false, false;
      values, errors, submitted := EmptyForm, map[], [];
    }

    /** The user types `text` into input `f`. */
    method Input(f: Field, text: string)
      requires Valid()
      modifies this
      ensures Valid()
      ensures Value(values, f) == text
      ensures forall g :: g != f ==> Value(values, g) == Value(old(values), g)
      ensures isSubmitting == old(isSubmitting) && buttonDisabled == old(buttonDisabled)
      ensures cooldownPending == old(cooldownPending)
      ensures errors == old(errors) && submitted == old(submitted)
    {
      values := match f
        case NameInput => values.(name := text)
        case EmailInput => values.(email := text)
        case SubjectInput => values.(subject := text)
        case MessageInput => values.(message := text);
    }

    /** `clearErrors`: every error span emptied and hidden, every border reset. */
    method ClearErrors()
      modifies this`errors
      ensures errors == map[]
    {
      errors := map[];
    }

    /** `showError(input, message)`. */
    method ShowError(f: Field, message: string)
      modifies this`errors
      ensures errors == old(errors)[f := message]
    {
      errors := errors[f := message];
    }

    /** The four checks of the `submit` handler, each showing its error;
        every check runs whatever the earlier ones found. */
    method Validate(v: Form) returns (isValid: bool)
      requires errors == map[]
      modifies this`errors
      ensures errors == ErrorMap(v)
      ensures isValid <==> FieldErrors(v) == {}
    {
      isValid := true;
      if IsBlank(v.name) {
        ShowError(NameInput, "Name is required");
        isValid := false;
      }
      if IsBlank(v.email) || !IsValidEmail(v.email) {
        ShowError(EmailInput, "Valid email is required");
        isValid := false;
      }
      if IsBlank(v.subject) {
        ShowError(SubjectInput, "Subject is required");
        isValid := false;
      }
      if IsBlank(v.message) {
        ShowError(MessageInput, "Message is required");
        isValid := false;
      }
      assert forall f :: f in errors <==> Fails(v, f);
      ErrorMapIsUnique(errors, v);
      assert isValid <==> !(Fails(v, NameInput) || Fails(v, EmailInput) ||
                            Fails(v, SubjectInput) || Fails(v, MessageInput));
      assert !isValid ==> FieldErrors(v) != {};
      assert isValid ==> FieldErrors(v) == {} by {
        if isValid {
          forall f ensures f !in FieldErrors(v) {
            match f
            case NameInput =>
            case EmailInput =>
            case SubjectInput =>
            case MessageInput =>
          }
        }
      }
    }

    /** `submitForm`: logs the payload, shows the success modal and resets
        the form. */
    method SubmitForm(payload: Form)
      requires modal.Valid()
      modifies this`submitted, this`values, modal
      ensures modal.Valid()
      ensures submitted == old(submitted) + [payload] && values == EmptyForm
      ensures modal.initialized && modal.displayed && modal.text == SuccessMessage
      ensures |modal.pendingTimers| == 1 && modal.framePending
      ensures modal.visible == old(modal.visible) && modal.endListeners == old(modal.endListeners)
    {
      submitted := submitted + [payload];
      var _ := modal.Show(SuccessMessage);
      values := EmptyForm;
    }

    /** The `submit` handler. While the lock is set it returns before doing
        anything. Otherwise it clears the old errors, checks all four fields,
        and, when none fails, takes the lock, disables the button, submits
        and schedules the cooldown. */
    method Submit()
      requires Valid()
      modifies this, modal
      ensures Valid()
      ensures old(isSubmitting) ==> unchanged(this) && unchanged(modal)
      ensures !old(isSubmitting) ==> errors == ErrorMap(old(values))
      ensures !old(isSubmitting) && FieldErrors(old(values)) == {} ==>
        && isSubmitting && cooldownPending && buttonDisabled == hasSubmitButton
        && submitted == old(submitted) + [old(values)] && values == EmptyForm
        && modal.displayed && modal.text == SuccessMessage && |modal.pendingTimers| == 1
        && modal.framePending && modal.visible == old(modal.visible)
        && modal.endListeners == old(modal.endListeners)
      ensures !old(isSubmitting) && FieldErrors(old(values)) != {} ==>
        && !isSubmitting && !cooldownPending && buttonDisabled == old(buttonDisabled)
        && submitted == old(submitted) && values == old(values) && unchanged(modal)
    {
      if isSubmitting {
        return;
      }
      var v := values;
      ClearErrors();
      var isValid := Validate(v);
      if isValid {
        isSubmitting := true;
        if hasSubmitButton {
          buttonDisabled := true;
        }
        SubmitForm(v);
        cooldownPending := true;
      }
    }

    /** The cooldown timer runs: the lock is released and the button
        re-enabled. Without a scheduled cooldown nothing runs. */
    method CooldownExpire()
      requires Valid()
      modifies this
      ensures Valid()
      ensures !isSubmitting && !buttonDisabled && !cooldownPending
      ensures values == old(values) && errors == old(errors) && submitted == old(submitted)
    {
      if cooldownPending {
        isSubmitting := false;
        if hasSubmitButton {
          buttonDisabled := false;
        }
        cooldownPending := false;
      }
    }
  }

  /** A form with every field filled in and a well-formed address passes. */
  lemma FilledFormPasses()
    ensures FieldErrors(Form("x", "a@b.c", "x", "x")) == {}
  {
    assert !IsBlank("x") by {
      BlankIffAllSpace("x");
      assert !IsSpace("x"[0]);
    }
    assert !IsBlank("a@b.c") by {
      BlankIffAllSpace("a@b.c");
      assert !IsSpace("a@b.c"[0]);
    }
    assert IsValidEmail("a@b.c") by {
      EmailExamples();
    }
    ErrorsAreBlankFields(Form("x", "a@b.c", "x", "x"), {});
  }

  /** A double submit: the second attempt, made while the lock is set, hands
      nothing further to `submitForm` and leaves the button disabled; the
      cooldown then re-enables it. */
  method DoubleSubmitIsBlocked() returns (submissions: nat, disabledMeanwhile: bool, enabledAfter: bool)
    ensures submissions == 1 && disabledMeanwhile && enabledAfter
  {
    var m := new Modal.SuccessModal();
    var form := new FormController(m, true);
    var filled := Form("x", "a@b.c", "x", "x");
    FilledFormPasses();
    form.Input(NameInput, "x");
    form.Input(EmailInput, "a@b.c");
    form.Input(SubjectInput, "x");
    form.Input(MessageInput, "x");
    assert form.values == filled;
    form.Submit();
    form.Input(NameInput, "x");
    form.Submit();
    submissions := |form.submitted|;
    disabledMeanwhile := form.buttonDisabled;
    form.CooldownExpire();
    enabledAfter := !form.buttonDisabled;
  }
}
