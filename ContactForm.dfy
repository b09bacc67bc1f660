/** The contact form's submit handler: check the relay credentials, send the form through
    the mail relay, notify the visitor, reset the form on success, and always end with
    the form no longer submitting. The relay call itself is an input: whether the
    awaited send resolved or rejected. */
module ContactForm {
  import opened Js

  /** The three relay credentials as read from the build configuration; an unset
      variable is `None`. */
  datatype Env = Env(serviceId: Option<string>, templateId: Option<string>, publicKey: Option<string>)

  /** JavaScript truthiness of a configuration value: set and not empty. */
  function Truthy(v: Option<string>): (r: bool)
    ensures !r <==> v == None || v == Some("")
  {
    v.Some? && v.value != ""
  }

  /** All three credentials are present; the check that guards the relay call. */
  function Configured(env: Env): (r: bool)
    ensures r ==> env.serviceId.Some? && env.templateId.Some? && env.publicKey.Some?
    ensures !r <==> env.serviceId in {None, Some("")} || env.templateId in {None, Some("")}
                    || env.publicKey in {None, Some("")}
  {
    Truthy(env.serviceId) && Truthy(env.templateId) && Truthy(env.publicKey)
  }

  /** The form's named fields. */
  datatype Fields = Fields(fullName: string, email: string, message: string)

  const EmptyFields: Fields := Fields("", "", "")

  datatype ToastKind = SuccessToast | ErrorToast
  datatype Toast = Toast(kind: ToastKind, message: string)

  const ConfigErrorToast: Toast := Toast(ErrorToast, "Configuration error. Please contact the administrator.")
  const SentToast: Toast := Toast(SuccessToast, "Message sent successfully! I'll get back to you soon.")
  const FailedToast: Toast := Toast(ErrorToast, "Failed to send message. Please try again or email me directly.")

  /** One call to the relay: the credentials and the form it was given. */
  datatype SendRequest = SendRequest(serviceId: string, templateId: string, publicKey: string, form: Fields)

  /** How the awaited relay call settled. */
  datatype RelayResult = Delivered | Rejected

  /** What one submission does, as seen from outside the handler. */
  datatype Submission = Submission(toast: Toast, request: Option<SendRequest>, fieldsAfter: Fields)

  /** The effect of one submission with configuration `env`, relay result `relay` and
      the form holding `fields`. */
  function Submit(env: Env, relay: RelayResult, fields: Fields): (r: Submission)
    ensures r.request.Some? <==> Configured(env)
    ensures r.request.Some? ==>
              r.request.value == SendRequest(env.serviceId.value, env.templateId.value, env.publicKey.value, fields)
    ensures r.toast == ConfigErrorToast <==> !Configured(env)
    ensures r.toast == SentToast <==> Configured(env) && relay == Delivered
    ensures r.toast == FailedToast <==> Configured(env) && relay == Rejected
    ensures r.fieldsAfter == (if Configured(env) && relay == Delivered then EmptyFields else fields)
  {
    if !Configured(env) then
      Submission(ConfigErrorToast, None, fields)
    else
      var request := SendRequest(env.serviceId.value, env.templateId.value, env.publicKey.value, fields);
      match relay
      case Delivered => Submission(SentToast, Some(request), EmptyFields)
      case Rejected => Submission(FailedToast, Some(request), fields)
  }

  /** Every submission ends in one of the three notifications, and the three are
      pairwise distinct, so the notification tells the outcome apart. */
  lemma OneOfThreeNotifications(env: Env, relay: RelayResult, fields: Fields)
    ensures var t := Submit(env, relay, fields).toast;
      t == ConfigErrorToast || t == SentToast || t == FailedToast
    ensures ConfigErrorToast != SentToast && SentToast != FailedToast && ConfigErrorToast != FailedToast
  {
    assert |ConfigErrorToast.message| != |FailedToast.message|;
  }

  /** The contact section's state: the form's fields, whether a submission is in
      progress, the logs of notifications shown and relay calls made, and the sends
      whose handler is still suspended at the await, oldest first. */
  class Contact {
    var isSubmitting: bool
    var fields: Fields
    var toasts: seq<Toast>
    var sent: seq<SendRequest>
    var inFlight: seq<SendRequest>
    /** Every value written to `isSubmitting`, oldest first. */
    ghost var submittingWrites: seq<bool>
    /** How many submissions have started. */
    ghost var submissions: nat

    /** Every started submission has shown exactly one notification or is still
        awaiting the relay, and every send awaiting the relay was made. */
    ghost predicate Valid()
      reads this
    {
      && |toasts| + |inFlight| == submissions
      && |inFlight| <= |sent|
      && forall i :: 0 <= i < |inFlight| ==> inFlight[i] in sent
    }

    constructor ()
      ensures Valid()
      ensures !isSubmitting && fields == EmptyFields && toasts == [] && sent == [] && inFlight == []
      ensures submittingWrites == [] && submissions == 0
    {
      isSubmitting := false;
      fields := EmptyFields;
      toasts := [];
      sent := [];
      inFlight := [];
      submittingWrites := [];
      submissions := 0;
    }

    /** The visitor types into the form's uncontrolled inputs. */
    method EditFields(f: Fields)
      requires Valid()
      modifies this
      ensures Valid()
      ensures fields == f
      ensures isSubmitting == old(isSubmitting) && toasts == old(toasts) && sent == old(sent)
      ensures inFlight == old(inFlight) && submittingWrites == old(submittingWrites)
      ensures submissions == old(submissions)
    {
      fields := f;
    }

    /** `handleSubmit` up to its await: prevent the browser's submission, mark the form
        as submitting, then either fail fast on a missing credential (the early return
        and the `finally` both clear `isSubmitting`) or make the relay call and
        suspend until it settles. */
    method HandleSubmit(env: Env) returns (defaultPrevented: bool)
      requires Valid()
      modifies this
      ensures Valid()
      ensures defaultPrevented
      ensures submissions == old(submissions) + 1 && fields == old(fields)
      ensures !Configured(env) ==>
        && toasts == old(toasts) + [ConfigErrorToast]
        && sent == old(sent) && inFlight == old(inFlight)
        && !isSubmitting && submittingWrites == old(submittingWrites) + [true, false, false]
      ensures Configured(env) ==>
        var request := SendRequest(env.serviceId.value, env.templateId.value, env.publicKey.value, old(fields));
        && toasts == old(toasts)
        && sent == old(sent) + [request] && inFlight == old(inFlight) + [request]
        && isSubmitting && submittingWrites == old(submittingWrites) + [true]
    {
      defaultPrevented := true;
      isSubmitting := true;
      submittingWrites := submittingWrites + [true];
      submissions := submissions + 1;

      // try
      var serviceId, templateId, publicKey := env.serviceId, env.templateId, env.publicKey;
      if !Truthy(serviceId) || !Truthy(templateId) || !Truthy(publicKey) {
        toasts := toasts + [ConfigErrorToast];
        isSubmitting := false;
        submittingWrites := submittingWrites + [false];
        // finally: runs after the early return as well
        isSubmitting := false;
        submittingWrites := submittingWrites + [false];
      } else {
        var request := SendRequest(serviceId.value, templateId.value, publicKey.value, fields);
        sent := sent + [request];
        inFlight := inFlight + [request];
      }
    }

    /** The relay call awaited by in-flight send `k` settles and that handler resumes:
        notify, reset the form (whatever it holds now) only on delivery, and clear
        `isSubmitting` in the `finally`, even if other sends are still in flight. */
    method SendSettles(k: nat, relay: RelayResult)
      requires Valid() && k < |inFlight|
      modifies this
      ensures Valid()
      ensures inFlight == old(inFlight[..k] + inFlight[k + 1..])
      ensures toasts == old(toasts) + [if relay == Delivered then SentToast else FailedToast]
      ensures fields == if relay == Delivered then EmptyFields else old(fields)
      ensures sent == old(sent) && submissions == old(submissions)
      ensures !isSubmitting && submittingWrites == old(submittingWrites) + [false]
    {
      inFlight := inFlight[..k] + inFlight[k + 1..];
      if relay == Delivered {
        toasts := toasts + [SentToast];
        fields := EmptyFields;
      } else {
        // catch
        toasts := toasts + [FailedToast];
      }
      // finally
      isSubmitting := false;
      submittingWrites := submittingWrites + [false];
    }
  }

  /** A submission whose relay call settles before anything else happens has exactly
      the effect `Submit` describes, and ends with `isSubmitting` false. */
  method SubmitUninterrupted(c: Contact, env: Env, relay: RelayResult)
    requires c.Valid()
    modifies c
    ensures c.Valid()
    ensures var r := Submit(env, relay, old(c.fields));
      && c.toasts == old(c.toasts) + [r.toast]
      && c.sent == old(c.sent) + (if r.request.Some? then [r.request.value] else [])
      && c.fields == r.fieldsAfter
    ensures c.inFlight == old(c.inFlight) && !c.isSubmitting
  {
    var prevented := c.HandleSubmit(env);
    if Configured(env) {
      c.SendSettles(|c.inFlight| - 1, relay);
      assert c.inFlight == old(c.inFlight);
    }
  }

  /** With no in-flight guard, a second submit during the first one's await sends the
      same filled form again. When the first send is delivered, the form is reset and
      `isSubmitting` is false although the second send is still in flight; the
      notifications follow the order in which the sends settle. */
  method OverlappingSubmissions(env: Env, f: Fields)
    returns (sentLog: seq<SendRequest>, toastLog: seq<Toast>, submittingMidFlight: bool,
             inFlightMidway: nat, fieldsAfter: Fields)
    requires Configured(env)
    ensures var request := SendRequest(env.serviceId.value, env.templateId.value, env.publicKey.value, f);
      sentLog == [request, request]
    ensures toastLog == [SentToast, FailedToast]
    ensures !submittingMidFlight && inFlightMidway == 1
    ensures fieldsAfter == EmptyFields
  {
    ghost var request := SendRequest(env.serviceId.value, env.templateId.value, env.publicKey.value, f);
    var c := new Contact();
    c.EditFields(f);
    var prevented := c.HandleSubmit(env);
    assert c.inFlight == [request];
    prevented := c.HandleSubmit(env);
    c.SendSettles(0, Delivered);
    submittingMidFlight, inFlightMidway := c.isSubmitting, |c.inFlight|;
    c.SendSettles(0, Rejected);
    sentLog, toastLog, fieldsAfter := c.sent, c.toasts, c.fields;
  }
}
