/**
 * The contact form's controller (components/contact.tsx, `Contact`): the
 * `formData`, `errors`, `success` and `isSubmitting` state and the handlers
 * that change it.
 *
 * React handlers read the state of the render they were created in. Every
 * `validateField` call therefore starts from the same render-time `errors` map
 * and replaces the whole map, so within one `handleSubmit` only the last call's
 * write survives. The functions below take that render-time state as their
 * input and return the state of the next render.
 *
 * `handleSubmit` is split at its `await`: `Submit` is the synchronous part,
 * `Settle` the continuation once the send has resolved (delivered or failed,
 * an input of the model), and `Expire` the 3000 ms timer that hides the
 * success message.
 */
module ContactForm {
  import opened Wrappers
  import opened JsText
  import opened ContactRules

  type Errors = map<string, string>

  datatype FormData = FormData(name: string, email: string, phone: string, message: string)

  const EmptyForm := FormData("", "", "", "")

  datatype Contact = Contact(form: FormData, errors: Errors, success: bool, submitting: bool)

  /** The state of the first render. */
  const Initial := Contact(EmptyForm, map[], false, false)

  /** `formData[field]`. */
  function Value(d: FormData, f: Field): string {
    match f
    case Name => d.name
    case Email => d.email
    case Phone => d.phone
    case Message => d.message
  }

  /** `{ ...d, [field]: v }`. */
  function With(d: FormData, f: Field, v: string): (r: FormData)
    ensures Value(r, f) == v
    ensures forall g :: g != f ==> Value(r, g) == Value(d, g)
  {
    match f
    case Name => d.(name := v)
    case Email => d.(email := v)
    case Phone => d.(phone := v)
    case Message => d.(message := v)
  }

  /** JavaScript truthiness of `errors[k]`: present and not the empty string. */
  predicate Truthy(errors: Errors, k: string) {
    k in errors && errors[k] != ""
  }

  /** The errors map records exactly whether `v` fails the rule of `f`, with that field's message. */
  predicate Judged(errors: Errors, f: Field, v: string) {
    && (Key(f) in errors <==> !Valid(f, v))
    && (Key(f) in errors ==> errors[Key(f)] == ErrorText(f))
  }

  /** The outcome of one `validateField` call: its return value and the map it stored. */
  datatype Checked = Checked(valid: bool, errors: Errors)

  /**
   * `validateField(name, value)` against the render-time map `errors`: only the
   * entry `name` can change, it is set exactly when the value fails its field's
   * rule, an unknown name changes nothing, and the result is `!errs[name]`.
   */
  function ValidateField(errors: Errors, name: string, value: string): (r: Checked)
    ensures r.errors - {name} == errors - {name}
    ensures FieldOf(name).None? ==> r.errors == errors && (r.valid <==> !Truthy(errors, name))
    ensures FieldOf(name).Some? ==> Judged(r.errors, FieldOf(name).value, value)
    ensures FieldOf(name).Some? ==> (r.valid <==> name !in r.errors)
    ensures FieldOf(name).Some? ==> (r.valid <==> Valid(FieldOf(name).value, value))
  {
    match FieldOf(name)
    case Some(f) =>
      FieldOfKey(name, f);
      var errs := if Valid(f, value) then errors - {name} else errors[name := ErrorText(f)];
      Checked(!Truthy(errs, name), errs)
    case None =>
      Checked(!Truthy(errors, name), errors)
  }

  /**
   * `validateField` called with a field's own key: either the entry is cleared
   * and the call reports success, or the field's message is written and it
   * reports failure.
   */
  function Validated(errors: Errors, f: Field, v: string): (c: Checked)
    ensures c.valid <==> Valid(f, v)
    ensures Judged(c.errors, f, v)
    ensures c.errors - {Key(f)} == errors - {Key(f)}
  {
    ValidateKey(errors, f, v);
    ValidateField(errors, Key(f), v)
  }

  /** For a field's own key, validation either clears the entry or writes the field's message. */
  lemma ValidateKey(errors: Errors, f: Field, v: string)
    ensures ValidateField(errors, Key(f), v) ==
              if Valid(f, v) then Checked(true, errors - {Key(f)})
              else Checked(false, errors[Key(f) := ErrorText(f)])
  {
  }

  /**
   * `handleChange`: the phone value is stored through `formatPhone`, any other
   * verbatim; the field is re-validated only when it already shows an error.
   */
  function Change(s: Contact, f: Field, raw: string): (r: Contact)
    ensures Value(r.form, f) == (if f == Phone then FormatPhone(raw) else raw)
    ensures forall g :: g != f ==> Value(r.form, g) == Value(s.form, g)
    ensures !Truthy(s.errors, Key(f)) ==> r.errors == s.errors
    ensures Truthy(s.errors, Key(f)) ==>
              Judged(r.errors, f, Value(r.form, f)) && r.errors - {Key(f)} == s.errors - {Key(f)}
    ensures r.success == s.success && r.submitting == s.submitting
  {
    var updated := if f == Phone then FormatPhone(raw) else raw;
    var errs := if Truthy(s.errors, Key(f)) then ValidateField(s.errors, Key(f), updated).errors else s.errors;
    s.(form := With(s.form, f, updated), errors := errs)
  }

  /**
   * `handleBlur`: the field is validated with the input's value, which for these
   * controlled inputs is the stored value.
   */
  function Blur(s: Contact, f: Field): (r: Contact)
    ensures Judged(r.errors, f, Value(s.form, f))
    ensures r.errors - {Key(f)} == s.errors - {Key(f)}
    ensures r.form == s.form && r.success == s.success && r.submitting == s.submitting
  {
    s.(errors := ValidateField(s.errors, Key(f), Value(s.form, f)).errors)
  }

  /** The result of `every`: whether all fields passed, the map stored last, and which key wrote it. */
  datatype Verdict = Verdict(valid: bool, errors: Errors, last: nat)

  /**
   * `keys.every(field => validateField(field, form[field]))` with every call
   * starting from the render-time map: it stops at the first failing field, and
   * the stored map is the one written by the last call made.
   */
  function Every(render: Errors, form: FormData, keys: seq<Field>): (r: Verdict)
    requires |keys| > 0
    ensures r.last < |keys|
    ensures forall j :: 0 <= j < r.last ==> Valid(keys[j], Value(form, keys[j]))
    ensures r.valid <==> Valid(keys[r.last], Value(form, keys[r.last]))
    ensures r.valid ==> r.last == |keys| - 1
    ensures Judged(r.errors, keys[r.last], Value(form, keys[r.last]))
    ensures r.errors - {Key(keys[r.last])} == render - {Key(keys[r.last])}
    decreases |keys|
  {
    var c := Validated(render, keys[0], Value(form, keys[0]));
    if !c.valid || |keys| == 1 then
      Verdict(c.valid, c.errors, 0)
    else
      var v := Every(render, form, keys[1..]);
      Verdict(v.valid, v.errors, v.last + 1)
  }

  /** Every field passes its rule. */
  predicate AllValid(form: FormData) {
    forall f :: Valid(f, Value(form, f))
  }

  /** `i` is the position, in key order, of the first field that fails its rule. */
  predicate FirstInvalid(form: FormData, i: int) {
    && 0 <= i < |FieldOrder|
    && !Valid(FieldOrder[i], Value(form, FieldOrder[i]))
    && forall j :: 0 <= j < i ==> Valid(FieldOrder[j], Value(form, FieldOrder[j]))
  }

  lemma AllValidInOrder(form: FormData)
    ensures AllValid(form) <==> forall i :: 0 <= i < |FieldOrder| ==> Valid(FieldOrder[i], Value(form, FieldOrder[i]))
  {
    if forall i :: 0 <= i < |FieldOrder| ==> Valid(FieldOrder[i], Value(form, FieldOrder[i])) {
      forall f
        ensures Valid(f, Value(form, f))
      {
        var i := Position(f);
      }
    }
  }

  /**
   * The synchronous part of `handleSubmit`. While a send is pending nothing
   * happens. Otherwise the fields are validated in key order; on the first
   * failure that field's entry is the only change. When all pass, only the
   * `message` entry is cleared and the send starts.
   */
  function Submit(s: Contact): (r: Contact)
    ensures s.submitting ==> r == s
    ensures !s.submitting ==> r.form == s.form && r.success == s.success
    ensures !s.submitting ==> (r.submitting <==> AllValid(s.form))
    ensures !s.submitting && AllValid(s.form) ==>
              Key(Message) !in r.errors && r.errors - {Key(Message)} == s.errors - {Key(Message)}
    ensures !s.submitting ==> forall i :: FirstInvalid(s.form, i) ==>
              && Judged(r.errors, FieldOrder[i], Value(s.form, FieldOrder[i]))
              && r.errors - {Key(FieldOrder[i])} == s.errors - {Key(FieldOrder[i])}
  {
    if s.submitting then s
    else
      var v := Every(s.errors, s.form, FieldOrder);
      AllValidInOrder(s.form);
      assert v.valid <==> AllValid(s.form);
      assert forall i :: FirstInvalid(s.form, i) ==> i == v.last;
      s.(errors := v.errors, submitting := v.valid)
  }

  /**
   * The continuation of `handleSubmit` once the send resolves: when delivered,
   * the fields are cleared and the success message shows; when it failed, the
   * form-level error is added to the current map and the fields are kept.
   * Either way the form is no longer submitting.
   */
  function Settle(s: Contact, delivered: bool): (r: Contact)
    requires s.submitting
    ensures !r.submitting
    ensures delivered ==> r.form == EmptyForm && r.success && r.errors == s.errors
    ensures !delivered ==> r.form == s.form && r.success == s.success
    ensures !delivered ==> FormKey in r.errors && r.errors[FormKey] == FailureText
                           && r.errors - {FormKey} == s.errors - {FormKey}
  {
    if delivered then s.(form := EmptyForm, success := true, submitting := false)
    else s.(errors := s.errors[FormKey := FailureText], submitting := false)
  }

  /** The 3000 ms timer started by a delivered send hides the success message. */
  function Expire(s: Contact): (r: Contact)
    ensures !r.success
    ensures r.form == s.form && r.errors == s.errors && r.submitting == s.submitting
  {
    s.(success := false)
  }

  // ---------------------------------------------------------------- the machine

  datatype Event =
    | Changed(field: Field, raw: string)
    | Blurred(field: Field)
    | Submitted
    | Settled(delivered: bool)
    | Expired

  /** A send can only resolve while one is pending. */
  predicate Enabled(s: Contact, e: Event) {
    e.Settled? ==> s.submitting
  }

  function Step(s: Contact, e: Event): Contact
    requires Enabled(s, e)
  {
    match e
    case Changed(f, raw) => Change(s, f, raw)
    case Blurred(f) => Blur(s, f)
    case Submitted => Submit(s)
    case Settled(delivered) => Settle(s, delivered)
    case Expired => Expire(s)
  }

  /** The state after a sequence of events, or `None` if one of them could not occur. */
  function Run(s: Contact, es: seq<Event>): Option<Contact>
    decreases |es|
  {
    if es == [] then Some(s)
    else if !Enabled(s, es[0]) then None
    else Run(Step(s, es[0]), es[1..])
  }

  /**
   * The errors map never reports a field that passes its rule, and every field
   * entry carries that field's message.
   */
  predicate ErrorsSound(s: Contact) {
    forall f :: Key(f) in s.errors ==> !Valid(f, Value(s.form, f)) && s.errors[Key(f)] == ErrorText(f)
  }

  lemma InitialSound()
    ensures ErrorsSound(Initial)
  {
  }

  lemma StepKeepsSound(s: Contact, e: Event)
    requires Enabled(s, e) && ErrorsSound(s)
    ensures ErrorsSound(Step(s, e))
  {
    var r := Step(s, e);
    match e
    case Changed(f, raw) =>
      forall g | Key(g) in r.errors
        ensures !Valid(g, Value(r.form, g)) && r.errors[Key(g)] == ErrorText(g)
      {
        if g != f {
          assert Key(g) in r.errors - {Key(f)};
        }
      }
    case Blurred(f) =>
      forall g | Key(g) in r.errors
        ensures !Valid(g, Value(r.form, g)) && r.errors[Key(g)] == ErrorText(g)
      {
        if g != f {
          assert Key(g) in r.errors - {Key(f)};
        }
      }
    case Submitted =>
      SubmitKeepsSound(s);
    case Settled(delivered) =>
      forall g | Key(g) in r.errors
        ensures !Valid(g, Value(r.form, g)) && r.errors[Key(g)] == ErrorText(g)
      {
        EmptyFailsEveryRule(g);
        if !delivered {
          assert Key(g) in r.errors - {FormKey};
        }
      }
    case Expired =>
  }

  lemma SubmitKeepsSound(s: Contact)
    requires ErrorsSound(s)
    ensures ErrorsSound(Submit(s))
  {
    var r := Submit(s);
    if !s.submitting {
      var v := Every(s.errors, s.form, FieldOrder);
      var k := Key(FieldOrder[v.last]);
      forall g | Key(g) in r.errors
        ensures !Valid(g, Value(r.form, g)) && r.errors[Key(g)] == ErrorText(g)
      {
        if Key(g) != k {
          assert Key(g) in r.errors - {k};
        } else {
          FieldOfKey(k, g);
          FieldOfKey(k, FieldOrder[v.last]);
        }
      }
    }
  }

  lemma {:induction false} RunKeepsSound(s: Contact, es: seq<Event>)
    requires ErrorsSound(s)
    ensures Run(s, es).Some? ==> ErrorsSound(Run(s, es).value)
    decreases |es|
  {
    if es != [] && Enabled(s, es[0]) {
      StepKeepsSound(s, es[0]);
      RunKeepsSound(Step(s, es[0]), es[1..]);
    }
  }

  // ---------------------------------------------------------------- consequences

  /**
   * In a sound state, a submit that starts a send leaves no field error behind:
   * the single write that survives is the last field's, and the others were
   * already absent.
   */
  lemma SendingStateHasNoFieldErrors(s: Contact)
    requires ErrorsSound(s) && !s.submitting && AllValid(s.form)
    ensures forall f :: Key(f) !in Submit(s).errors
  {
    var r := Submit(s);
    forall f
      ensures Key(f) !in r.errors
    {
      if f != Message {
        assert Key(f) in r.errors ==> Key(f) in r.errors - {Key(Message)};
      }
    }
  }

  /** A second submit while the first is in flight starts no second send. */
  lemma SubmitIsReentrancySafe(s: Contact)
    requires !s.submitting && AllValid(s.form)
    ensures Submit(s).submitting
    ensures Submit(Submit(s)) == Submit(s)
  {
  }

  /** A rejected submit leaves `isSubmitting`, `success` and the fields as they were. */
  lemma RejectedSubmitChangesOnlyErrors(s: Contact)
    requires !s.submitting && !AllValid(s.form)
    ensures var r := Submit(s); r.form == s.form && r.success == s.success && !r.submitting
  {
  }

  /** Once a submission has failed, its message stays in the map through every later event. */
  lemma FormErrorPersists(s: Contact, e: Event)
    requires Enabled(s, e) && FormKey in s.errors && s.errors[FormKey] == FailureText
    ensures FormKey in Step(s, e).errors && Step(s, e).errors[FormKey] == FailureText
  {
    var r := Step(s, e);
    assert FieldOf(FormKey).None?;
    match e
    case Changed(f, raw) =>
      assert FormKey in r.errors - {Key(f)};
    case Blurred(f) =>
      assert FormKey in r.errors - {Key(f)};
    case Submitted =>
      if !s.submitting {
        var v := Every(s.errors, s.form, FieldOrder);
        assert FormKey in r.errors - {Key(FieldOrder[v.last])};
      }
    case Settled(_) =>
    case Expired =>
  }

  /**
   * The example of an empty name: the submit stops at the name and records only
   * its error.
   */
  lemma EmptyNameScenario()
    ensures var s := Contact(FormData("", "x@y.com", "+91 81253 42924", "hi"), map[], false, false);
            Submit(s) == s.(errors := map["name" := "Name required"])
  {
    var s := Contact(FormData("", "x@y.com", "+91 81253 42924", "hi"), map[], false, false);
    assert !Valid(Name, s.form.name) by {
      assert Trim("") == [];
    }
    assert FirstInvalid(s.form, 0);
    var r := Submit(s);
    assert r.errors - {"name"} == map[];
    assert r.errors.Keys == {"name"};
  }

  /**
   * `success` and `isSubmitting` can both be set: a new submission that starts
   * within 3000 ms of a delivered one finds the success message still showing.
   */
  lemma SuccessWhileSubmitting(s: Contact)
    requires s.success && !s.submitting && AllValid(s.form)
    ensures Submit(s).success && Submit(s).submitting
  {
  }
}
