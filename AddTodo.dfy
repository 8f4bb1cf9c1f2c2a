/**
 * The new-todo form of the client: the validators `createForms` attaches to
 * the four fields, what they make of a field's text, when the whole form is
 * valid, and which messages the form shows for a field's errors.
 * Validators behave as Angular's built-in ones: `minLength` and `pattern` let
 * an empty value through (only `required` rejects it), and a composed list of
 * validators reports the error key of every validator that fails.
 */
module AddTodo {
  import opened Strings

  // ---------------------------------------------------------------------------
  // Validators
  // ---------------------------------------------------------------------------

  /**
   * A field validator: `required`, `minLength(n)`, `maxLength(n)`, or a pattern
   * of the form `^(a|b|...)$`, given by its alternatives.
   */
  datatype Validator = Required | MinLength(min: nat) | MaxLength(max: nat) | Pattern(alternatives: seq<string>)

  /** The key under which a validator reports its error; each kind of validator has its own key. */
  function ErrorKey(v: Validator): (key: string)
    ensures key == "required" <==> v.Required?
    ensures key == "minlength" <==> v.MinLength?
    ensures key == "maxlength" <==> v.MaxLength?
    ensures key == "pattern" <==> v.Pattern?
  {
    match v
    case Required => "required"
    case MinLength(_) => "minlength"
    case MaxLength(_) => "maxlength"
    case Pattern(_) => "pattern"
  }

  /** Whether a validator rejects a value; only `required` rejects the empty text. */
  predicate Fails(v: Validator, value: string)
    ensures value == "" ==> (Fails(v, value) <==> v.Required?)
    ensures v.Required? ==> (Fails(v, value) <==> value == "")
  {
    match v
    case Required => |value| == 0
    case MinLength(min) => 0 < |value| < min
    case MaxLength(max) => |value| > max
    case Pattern(alternatives) => |value| > 0 && value !in alternatives
  }

  /** `Validators.compose(validators)`: the keys of all the validators that reject the value. */
  function Errors(validators: seq<Validator>, value: string): (keys: set<string>)
    ensures forall k :: k in keys <==>
      exists i :: 0 <= i < |validators| && Fails(validators[i], value) && ErrorKey(validators[i]) == k
    decreases |validators|
  {
    if validators == [] then {}
    else
      var rest := Errors(validators[1..], value);
      assert forall i :: 1 <= i < |validators| ==> validators[i] == validators[1..][i - 1];
      (if Fails(validators[0], value) then {ErrorKey(validators[0])} else {}) + rest
  }

  /** The owner: required, from 2 to 50 characters. */
  const OwnerValidators: seq<Validator> := [Required, MinLength(2), MaxLength(50)]

  /** The body: required, from 5 to 200 characters. */
  const BodyValidators: seq<Validator> := [Required, MinLength(5), MaxLength(200)]

  /** The status: required, and exactly `complete` or `incomplete` (`^(complete|incomplete)$`). */
  const StatusValidators: seq<Validator> := [Required, Pattern(["complete", "incomplete"])]

  /** The category: required, from 3 to 30 characters. */
  const CategoryValidators: seq<Validator> := [Required, MinLength(3), MaxLength(30)]

  /** The errors of a length-bounded field: `required` when empty, otherwise the bound it breaks, if any. */
  lemma {:induction false} LengthErrors(min: nat, max: nat, value: string)
    requires 1 <= min <= max
    ensures Errors([Required, MinLength(min), MaxLength(max)], value) ==
      if |value| == 0 then {"required"}
      else if |value| < min then {"minlength"}
      else if |value| > max then {"maxlength"}
      else {}
  {
    var vs := [Required, MinLength(min), MaxLength(max)];
    assert vs[1..] == [MinLength(min), MaxLength(max)];
    assert vs[1..][1..] == [MaxLength(max)];
    assert vs[1..][1..][1..] == [];
    var tooLong := if |value| > max then {"maxlength"} else {};
    var tooShort := if 0 < |value| < min then {"minlength"} else {};
    var missing := if |value| == 0 then {"required"} else {};
    assert Errors([MaxLength(max)], value) == tooLong + Errors([], value);
    assert Errors(vs[1..], value) == tooShort + tooLong;
    assert Errors(vs, value) == missing + tooShort + tooLong;
  }

  /** The owner is accepted exactly when it has from 2 to 50 characters; an empty owner is only `required`. */
  lemma OwnerRule(owner: string)
    ensures Errors(OwnerValidators, owner) == {} <==> 2 <= |owner| <= 50
    ensures owner == "" ==> Errors(OwnerValidators, owner) == {"required"}
    ensures |owner| == 1 ==> Errors(OwnerValidators, owner) == {"minlength"}
    ensures |owner| > 50 ==> Errors(OwnerValidators, owner) == {"maxlength"}
  {
    LengthErrors(2, 50, owner);
  }

  /** The body is accepted exactly when it has from 5 to 200 characters. */
  lemma BodyRule(body: string)
    ensures Errors(BodyValidators, body) == {} <==> 5 <= |body| <= 200
    ensures body == "" ==> Errors(BodyValidators, body) == {"required"}
    ensures 0 < |body| < 5 ==> Errors(BodyValidators, body) == {"minlength"}
    ensures |body| > 200 ==> Errors(BodyValidators, body) == {"maxlength"}
  {
    LengthErrors(5, 200, body);
  }

  /** The category is accepted exactly when it has from 3 to 30 characters. */
  lemma CategoryRule(category: string)
    ensures Errors(CategoryValidators, category) == {} <==> 3 <= |category| <= 30
    ensures category == "" ==> Errors(CategoryValidators, category) == {"required"}
    ensures 0 < |category| < 3 ==> Errors(CategoryValidators, category) == {"minlength"}
    ensures |category| > 30 ==> Errors(CategoryValidators, category) == {"maxlength"}
  {
    LengthErrors(3, 30, category);
  }

  /**
   * The status is accepted exactly when it is `complete` or `incomplete`, in
   * lower case; an empty status is only `required`, any other text only `pattern`.
   */
  lemma {:induction false} StatusRule(status: string)
    ensures Errors(StatusValidators, status) == {} <==> status == "complete" || status == "incomplete"
    ensures status == "" ==> Errors(StatusValidators, status) == {"required"}
    ensures status != "" && status != "complete" && status != "incomplete"
      ==> Errors(StatusValidators, status) == {"pattern"}
  {
    var vs := StatusValidators;
    assert vs[1..] == [Pattern(["complete", "incomplete"])];
    assert vs[1..][1..] == [];
    assert status in ["complete", "incomplete"] <==> status == "complete" || status == "incomplete";
  }

  // ---------------------------------------------------------------------------
  // The form
  // ---------------------------------------------------------------------------

  /** A form control: its current text and its validators. */
  datatype Control = Control(value: string, validators: seq<Validator>)

  /** The four fields of the form, named `owner`, `body`, `status` and `category`. */
  datatype Field = Owner | Body | Status | Category

  /** A form group: the controls by field. */
  datatype FormGroup = FormGroup(controls: map<Field, Control>)

  /** A control is valid when no validator rejects its value. */
  predicate ControlValid(c: Control) {
    Errors(c.validators, c.value) == {}
  }

  /** A form group is valid when every control is. */
  predicate FormValid(form: FormGroup) {
    forall field :: field in form.controls ==> ControlValid(form.controls[field])
  }

  /** Every field of the form. */
  const Fields: set<Field> := {Owner, Body, Status, Category}

  /** The new-todo form holding the given texts, each field under its validators. */
  function TodoForm(owner: string, body: string, status: string, category: string): (form: FormGroup)
    ensures form.controls.Keys == Fields
    ensures forall field :: field in Fields ==> form.controls[field].validators == ValidatorsOf(field)
  {
    FormGroup(map[
      Owner := Control(owner, OwnerValidators),
      Body := Control(body, BodyValidators),
      Status := Control(status, StatusValidators),
      Category := Control(category, CategoryValidators)])
  }

  /** The texts a field accepts: the length bounds of the owner, body and category, the two status words. */
  predicate Accepts(field: Field, value: string) {
    match field
    case Owner => 2 <= |value| <= 50
    case Body => 5 <= |value| <= 200
    case Status => value == "complete" || value == "incomplete"
    case Category => 3 <= |value| <= 30
  }

  /** A field's validators accept exactly the texts the field accepts, and reject the empty text as `required` only. */
  lemma FieldRule(field: Field, value: string)
    ensures Errors(ValidatorsOf(field), value) == {} <==> Accepts(field, value)
    ensures value == "" ==> Errors(ValidatorsOf(field), value) == {"required"}
  {
    match field
    case Owner => OwnerRule(value);
    case Body => BodyRule(value);
    case Status => StatusRule(value);
    case Category => CategoryRule(value);
  }

  /** The form is valid exactly when each of the four fields obeys its own rule. */
  lemma FormRule(owner: string, body: string, status: string, category: string)
    ensures FormValid(TodoForm(owner, body, status, category)) <==>
      && 2 <= |owner| <= 50
      && 5 <= |body| <= 200
      && (status == "complete" || status == "incomplete")
      && 3 <= |category| <= 30
  {
    var form := TodoForm(owner, body, status, category);
    assert form.controls[Owner] == Control(owner, ValidatorsOf(Owner));
    assert form.controls[Body] == Control(body, ValidatorsOf(Body));
    assert form.controls[Status] == Control(status, ValidatorsOf(Status));
    assert form.controls[Category] == Control(category, ValidatorsOf(Category));
    FieldRule(Owner, owner);
    FieldRule(Body, body);
    FieldRule(Status, status);
    FieldRule(Category, category);
  }

  /** A freshly created form is invalid: every field starts empty and reports only `required`. */
  lemma FreshFormInvalid()
    ensures forall field :: Errors(ValidatorsOf(field), "") == {"required"}
    ensures !FormValid(TodoForm("", "", "", ""))
  {
    forall field
      ensures Errors(ValidatorsOf(field), "") == {"required"}
    {
      FieldRule(field, "");
    }
    var form := TodoForm("", "", "", "");
    assert form.controls[Owner].validators == ValidatorsOf(Owner);
    assert !ControlValid(form.controls[Owner]);
  }

  // ---------------------------------------------------------------------------
  // Validation messages
  // ---------------------------------------------------------------------------

  /** One entry of the message table: the error key it answers and the text shown. */
  datatype ValidationMessage = ValidationMessage(kind: string, message: string)

  /**
   * The message table as the component declares it: the entries for each field,
   * in order. The owner, body and category entries are filed under the keys of
   * their validators, in order; the first status entry is filed under `status`.
   */
  function AsWrittenMessagesOf(field: Field): (entries: seq<ValidationMessage>)
    ensures |entries| == |ValidatorsOf(field)|
    ensures field != Status ==> forall i :: 0 <= i < |entries| ==> entries[i].kind == ErrorKey(ValidatorsOf(field)[i])
    ensures field == Status ==> entries[0].kind == "status" && entries[1].kind == ErrorKey(ValidatorsOf(Status)[0])
  {
    match field
    case Owner => [
      ValidationMessage("required", "Owner is required"),
      ValidationMessage("minlength", "Owner must be at least 2 characters long"),
      ValidationMessage("maxlength", "Owner cannot be more than 50 characters long")]
    case Body => [
      ValidationMessage("required", "Body is required"),
      ValidationMessage("minlength", "Body must be at least 5 characters long"),
      ValidationMessage("maxlength", "Body may not be more than 200 characters long")]
    case Status => [
      ValidationMessage("status", "Status must be either complete or incomplete"),
      ValidationMessage("required", "Status is required")]
    case Category => [
      ValidationMessage("required", "Category is required"),
      ValidationMessage("minlength", "Category must be at least 3 characters long"),
      ValidationMessage("maxlength", "Category may not be more than 30 characters long")]
  }

  /**
   * The corrected message table: the declared one, except that the status
   * pattern message is filed under `pattern`, the key the pattern validator
   * reports, instead of `status`, a key no validator reports.
   */
  function MessagesOf(field: Field): (entries: seq<ValidationMessage>)
    ensures field != Status ==> entries == AsWrittenMessagesOf(field)
    ensures field == Status ==>
      entries == AsWrittenMessagesOf(Status)[0 := AsWrittenMessagesOf(Status)[0].(kind := ErrorKey(ValidatorsOf(Status)[1]))]
  {
    if field == Status then [
      ValidationMessage("pattern", "Status must be either complete or incomplete"),
      ValidationMessage("required", "Status is required")]
    else AsWrittenMessagesOf(field)
  }

  /** The message table the component declares, by field. */
  function ValidationMessages(): (table: map<Field, seq<ValidationMessage>>)
    ensures table.Keys == Fields
    ensures forall field :: field in Fields ==> table[field] == AsWrittenMessagesOf(field)
  {
    map field | field in Fields :: AsWrittenMessagesOf(field)
  }

  /** The messages a field shows: the entries, in table order, whose key is among the errors. */
  function Shown(entries: seq<ValidationMessage>, errors: set<string>): (shown: seq<string>)
    ensures |shown| <= |entries|
    ensures forall m :: m in shown <==> exists e :: e in entries && e.kind in errors && e.message == m
    ensures shown == [] <==> forall e :: e in entries ==> e.kind !in errors
    decreases |entries|
  {
    if entries == [] then []
    else
      var rest := Shown(entries[1..], errors);
      assert forall e :: e in entries <==> e == entries[0] || e in entries[1..];
      (if entries[0].kind in errors then [entries[0].message] else []) + rest
  }

  /** The validators of a field of the form. */
  function ValidatorsOf(field: Field): seq<Validator> {
    match field
    case Owner => OwnerValidators
    case Body => BodyValidators
    case Status => StatusValidators
    case Category => CategoryValidators
  }

  /** The bound of a length validator. */
  function Bound(v: Validator): nat {
    match v
    case MinLength(min) => min
    case MaxLength(max) => max
    case _ => 0
  }

  /** The owner's minimum-length message mentions the bound 2. */
  lemma OwnerMinMessageMentionsBound()
    ensures Contains(MessagesOf(Owner)[1].message, NatToString(2))
  {
    var message := MessagesOf(Owner)[1].message;
    assert message == "Owner must be at least 2 characters long";
    assert NatToString(2) == "2";
    ContainsAt(message, "2", 23);
  }

  /** The owner's maximum-length message mentions the bound 50. */
  lemma OwnerMaxMessageMentionsBound()
    ensures Contains(MessagesOf(Owner)[2].message, NatToString(50))
  {
    var message := MessagesOf(Owner)[2].message;
    assert message == "Owner cannot be more than 50 characters long";
    assert NatToString(50) == "50";
    ContainsAt(message, "50", 26);
  }

  /** The body's minimum-length message mentions the bound 5. */
  lemma BodyMinMessageMentionsBound()
    ensures Contains(MessagesOf(Body)[1].message, NatToString(5))
  {
    var message := MessagesOf(Body)[1].message;
    assert message == "Body must be at least 5 characters long";
    assert NatToString(5) == "5";
    ContainsAt(message, "5", 22);
  }

  /** The body's maximum-length message mentions the bound 200. */
  lemma BodyMaxMessageMentionsBound()
    ensures Contains(MessagesOf(Body)[2].message, NatToString(200))
  {
    var message := MessagesOf(Body)[2].message;
    assert message == "Body may not be more than 200 characters long";
    assert NatToString(20) == "20";
    assert NatToString(200) == "200";
    ContainsAt(message, "200", 26);
  }

  /** The category's minimum-length message mentions the bound 3. */
  lemma CategoryMinMessageMentionsBound()
    ensures Contains(MessagesOf(Category)[1].message, NatToString(3))
  {
    var message := MessagesOf(Category)[1].message;
    assert message == "Category must be at least 3 characters long";
    assert NatToString(3) == "3";
    ContainsAt(message, "3", 26);
  }

  /** The category's maximum-length message mentions the bound 30. */
  lemma CategoryMaxMessageMentionsBound()
    ensures Contains(MessagesOf(Category)[2].message, NatToString(30))
  {
    var message := MessagesOf(Category)[2].message;
    assert message == "Category may not be more than 30 characters long";
    assert NatToString(30) == "30";
    ContainsAt(message, "30", 30);
  }

  /**
   * Each length validator of the owner, body and category has its message filed
   * under the key it reports, and the message mentions the validator's bound.
   */
  lemma LengthMessagesMatchBounds(field: Field, i: nat)
    requires field != Status && 1 <= i <= 2
    ensures ValidatorsOf(field)[i] == (if i == 1 then MinLength(Bound(ValidatorsOf(field)[i])) else MaxLength(Bound(ValidatorsOf(field)[i])))
    ensures MessagesOf(field)[i].kind == ErrorKey(ValidatorsOf(field)[i])
    ensures Contains(MessagesOf(field)[i].message, NatToString(Bound(ValidatorsOf(field)[i])))
  {
    match field
    case Owner =>
      OwnerMessageKinds();
      if i == 1 { OwnerMinMessageMentionsBound(); } else { OwnerMaxMessageMentionsBound(); }
    case Body =>
      BodyMessageKinds();
      if i == 1 { BodyMinMessageMentionsBound(); } else { BodyMaxMessageMentionsBound(); }
    case Category =>
      CategoryMessageKinds();
      if i == 1 { CategoryMinMessageMentionsBound(); } else { CategoryMaxMessageMentionsBound(); }
  }

  /** The owner's messages are filed, in order, under the keys its three validators report. */
  lemma OwnerMessageKinds()
    ensures |MessagesOf(Owner)| == |ValidatorsOf(Owner)| == 3
    ensures forall i :: 0 <= i < 3 ==> MessagesOf(Owner)[i].kind == ErrorKey(ValidatorsOf(Owner)[i])
  {
    var entries, vs := MessagesOf(Owner), ValidatorsOf(Owner);
    assert entries[0].kind == "required" && entries[1].kind == "minlength" && entries[2].kind == "maxlength";
    assert ErrorKey(vs[0]) == "required" && ErrorKey(vs[1]) == "minlength" && ErrorKey(vs[2]) == "maxlength";
  }

  /** The body's messages are filed, in order, under the keys its three validators report. */
  lemma BodyMessageKinds()
    ensures |MessagesOf(Body)| == |ValidatorsOf(Body)| == 3
    ensures forall i :: 0 <= i < 3 ==> MessagesOf(Body)[i].kind == ErrorKey(ValidatorsOf(Body)[i])
  {
    var entries, vs := MessagesOf(Body), ValidatorsOf(Body);
    assert entries[0].kind == "required" && entries[1].kind == "minlength" && entries[2].kind == "maxlength";
    assert ErrorKey(vs[0]) == "required" && ErrorKey(vs[1]) == "minlength" && ErrorKey(vs[2]) == "maxlength";
  }

  /** The category's messages are filed, in order, under the keys its three validators report. */
  lemma CategoryMessageKinds()
    ensures |MessagesOf(Category)| == |ValidatorsOf(Category)| == 3
    ensures forall i :: 0 <= i < 3 ==> MessagesOf(Category)[i].kind == ErrorKey(ValidatorsOf(Category)[i])
  {
    var entries, vs := MessagesOf(Category), ValidatorsOf(Category);
    assert entries[0].kind == "required" && entries[1].kind == "minlength" && entries[2].kind == "maxlength";
    assert ErrorKey(vs[0]) == "required" && ErrorKey(vs[1]) == "minlength" && ErrorKey(vs[2]) == "maxlength";
  }

  /** The status messages are filed under the keys its two validators report, the pattern's first. */
  lemma StatusMessageKinds()
    ensures |MessagesOf(Status)| == |ValidatorsOf(Status)| == 2
    ensures MessagesOf(Status)[0].kind == ErrorKey(ValidatorsOf(Status)[1])
    ensures MessagesOf(Status)[1].kind == ErrorKey(ValidatorsOf(Status)[0])
  {
  }

  /** In the corrected table, every validator of a field has an entry under the key it reports. */
  lemma MessageForEveryValidator(field: Field, i: nat)
    requires i < |ValidatorsOf(field)|
    ensures exists j :: 0 <= j < |MessagesOf(field)| && MessagesOf(field)[j].kind == ErrorKey(ValidatorsOf(field)[i])
  {
    match field
    case Owner => OwnerMessageKinds(); assert MessagesOf(field)[i].kind == ErrorKey(ValidatorsOf(field)[i]);
    case Body => BodyMessageKinds(); assert MessagesOf(field)[i].kind == ErrorKey(ValidatorsOf(field)[i]);
    case Category => CategoryMessageKinds(); assert MessagesOf(field)[i].kind == ErrorKey(ValidatorsOf(field)[i]);
    case Status =>
      StatusMessageKinds();
      var j := if i == 0 then 1 else 0;
      assert MessagesOf(field)[j].kind == ErrorKey(ValidatorsOf(field)[i]);
  }

  /**
   * With the corrected table, every error a field can report has a message of
   * its own: a field shows at least one message exactly when it is invalid.
   */
  lemma EveryErrorHasMessage(field: Field, value: string)
    ensures Shown(MessagesOf(field), Errors(ValidatorsOf(field), value)) != []
      <==> Errors(ValidatorsOf(field), value) != {}
  {
    var vs := ValidatorsOf(field);
    var entries := MessagesOf(field);
    var errors := Errors(vs, value);
    if errors != {} {
      var k :| k in errors;
      var i :| 0 <= i < |vs| && Fails(vs[i], value) && ErrorKey(vs[i]) == k;
      MessageForEveryValidator(field, i);
      var j :| 0 <= j < |entries| && entries[j].kind == k;
      var e := entries[j];
      assert e in entries && e.kind in errors;
      assert e.message in Shown(entries, errors);
    }
  }

  /**
   * In the declared table, every validator has an entry under the key it reports
   * except the status pattern validator: no entry is filed under `pattern`.
   */
  lemma DeclaredTableMessages(field: Field, i: nat)
    requires i < |ValidatorsOf(field)|
    ensures (exists j :: 0 <= j < |AsWrittenMessagesOf(field)| && AsWrittenMessagesOf(field)[j].kind == ErrorKey(ValidatorsOf(field)[i]))
      <==> !(field == Status && i == 1)
  {
    var entries := AsWrittenMessagesOf(field);
    var key := ErrorKey(ValidatorsOf(field)[i]);
    if field == Status && i == 1 {
      assert key == "pattern";
      assert forall j :: 0 <= j < |entries| ==> entries[j].kind != key;
    } else if field == Status {
      assert entries[1].kind == key;
    } else {
      assert entries[i].kind == key;
    }
  }

  /**
   * As declared, the status entry for a text that is neither `complete` nor
   * `incomplete` is filed under `status`, a key no validator reports: the
   * status `done` fails the pattern validator and the field shows no message.
   */
  lemma StatusPatternMessageUnreachable()
    ensures Errors(StatusValidators, "done") == {"pattern"}
    ensures Shown(AsWrittenMessagesOf(Status), Errors(StatusValidators, "done")) == []
  {
    StatusRule("done");
    var entries := AsWrittenMessagesOf(Status);
    assert entries[1..][1..] == [];
  }

  // ---------------------------------------------------------------------------
  // The component
  // ---------------------------------------------------------------------------

  /** The add-todo component: its form, created on initialisation, and its message table. */
  class AddTodoComponent {
    /** The form; absent until `createForms` runs. */
    var addTodoForm: FormGroup
    /** Whether `createForms` has run. */
    var formCreated: bool
    /** The messages the form shows for each field's errors, as declared. */
    const addTodoValidationMessages: map<Field, seq<ValidationMessage>>

    /** A component before initialisation: no form yet. */
    constructor ()
      ensures !formCreated
      ensures addTodoValidationMessages == ValidationMessages()
    {
      addTodoForm := FormGroup(map[]);
      formCreated := false;
      addTodoValidationMessages := ValidationMessages();
    }

    /**
     * `createForms()`: sets the form to the four empty fields under their
     * validators, which is an invalid form.
     */
    method CreateForms()
      modifies this
      ensures formCreated
      ensures addTodoForm == TodoForm("", "", "", "")
      ensures addTodoForm.controls.Keys == Fields
      ensures !FormValid(addTodoForm)
    {
      addTodoForm := TodoForm("", "", "", "");
      formCreated := true;
      FreshFormInvalid();
    }
  }
}
