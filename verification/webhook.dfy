/** Shared vocabulary of the two payment-webhook handlers: decoded JSON
    values, the Telegram update fields the handlers read, the attribution
    of a payment to a user and bet, and the left-to-right assignment of
    `key:value` fields that both naive payload parsers perform. */
module Webhook {
  import opened Wrappers
  import Text

  /** A decoded JSON value.  Numbers are integers; arrays and objects are
      not looked into by the handlers. */
  datatype Value = Null | Bool(b: bool) | Num(n: int) | Str(s: string) | Compound

  /** A decoded JSON object; a repeated key keeps its last value in both
      decoders, which the map reflects. */
  type JsonObject = map<string, Value>

  /** JavaScript truthiness of a decoded value. */
  predicate Truthy(v: Value) {
    match v
    case Null => false
    case Bool(b) => b
    case Num(n) => n != 0
    case Str(s) => s != ""
    case Compound => true
  }

  /** The user id and bet amount a payment is attributed to. */
  datatype Attribution = Attribution(userId: Value, betAmount: Value)

  /** The attribution before the payload is read: the sender's id, else
      the chat id, and a bet of 0. */
  function DefaultAttribution(fromId: Option<int>, chatId: int): (a: Attribution)
    ensures a.betAmount == Num(0)
    ensures fromId.Some? ==> a.userId == Num(fromId.value)
    ensures fromId.None? ==> a.userId == Num(chatId)
  {
    Attribution(Num(fromId.GetOr(chatId)), Num(0))
  }

  /** The characters that separate fields of a naive payload. */
  const Separators: set<char> := {'|', ',', ';'}

  /** Keys that set the user id, and keys that set the bet. */
  const UserKeys: set<string> := {"userId", "uid"}
  const BetKeys: set<string> := {"betAmount", "bet"}

  /** Both servers read a payload as JSON when, stripped, it opens with
      `{`: that is, when its first character other than whitespace is `{`. */
  predicate IsJsonPayload(payload: string): (b: bool)
    ensures b <==> Text.LeadingSpaces(payload) < |payload| && payload[Text.LeadingSpaces(payload)] == '{'
  {
    Text.StartsWith(Text.Strip(payload), "{")
  }

  /** A payload that opens with `{` is read as JSON. */
  lemma BraceFirstIsJson(payload: string)
    requires payload != [] && payload[0] == '{'
    ensures IsJsonPayload(payload)
  {
    var r := Text.Strip(payload);
    assert !Text.IsSpace(payload[0]);
    assert Text.LeadingSpaces(payload) == 0;
    assert |r| >= 1;
    assert r[..1] == "{";
  }

  /** A `key:value` field of a naive payload, key and value stripped. */
  datatype Field = Field(key: string, value: string)

  /** The effect of one field: a user key replaces the user id, a bet key
      replaces the bet, any other key changes nothing.  `userOf` and
      `betOf` are the server's conversions of the value text. */
  function Assign(acc: Attribution, f: Field, userOf: string -> Value, betOf: string -> Value): Attribution {
    if f.key in UserKeys then acc.(userId := userOf(f.value))
    else if f.key in BetKeys then acc.(betAmount := betOf(f.value))
    else acc
  }

  /** The fields applied in payload order. */
  function AssignAll(acc: Attribution, fields: seq<Field>, userOf: string -> Value, betOf: string -> Value): Attribution
    decreases |fields|
  {
    if fields == [] then acc
    else AssignAll(Assign(acc, fields[0], userOf, betOf), fields[1..], userOf, betOf)
  }

  /** Reference reading of a field list: the value of the last field whose
      key is in `keys`, if there is one. */
  function LastValueFor(fields: seq<Field>, keys: set<string>): (r: Option<string>)
    ensures r.Some? <==> exists i :: 0 <= i < |fields| && fields[i].key in keys
    ensures r.Some? ==> exists i :: (0 <= i < |fields| && fields[i].key in keys && fields[i].value == r.value
                                     && forall j :: i < j < |fields| ==> fields[j].key !in keys)
    decreases |fields|
  {
    if fields == [] then None
    else
      var last := fields[|fields| - 1];
      if last.key in keys then Some(last.value)
      else
        var r := LastValueFor(fields[..|fields| - 1], keys);
        LastValueSkipsLast(fields, keys, r);
        r
  }

  /** A last field with another key leaves the prefix's answer standing. */
  lemma LastValueSkipsLast(fields: seq<Field>, keys: set<string>, r: Option<string>)
    requires fields != [] && fields[|fields| - 1].key !in keys
    requires var prefix := fields[..|fields| - 1];
      && (r.Some? <==> exists i :: 0 <= i < |prefix| && prefix[i].key in keys)
      && (r.Some? ==> exists i :: (0 <= i < |prefix| && prefix[i].key in keys && prefix[i].value == r.value
                                   && forall j :: i < j < |prefix| ==> prefix[j].key !in keys))
    ensures r.Some? <==> exists i :: 0 <= i < |fields| && fields[i].key in keys
    ensures r.Some? ==> exists i :: (0 <= i < |fields| && fields[i].key in keys && fields[i].value == r.value
                                     && forall j :: i < j < |fields| ==> fields[j].key !in keys)
  {
    var n := |fields|;
    var prefix := fields[..n - 1];
    if r.Some? {
      var i :| 0 <= i < |prefix| && prefix[i].key in keys && prefix[i].value == r.value
               && forall j :: i < j < |prefix| ==> prefix[j].key !in keys;
      assert fields[i] == prefix[i];
      forall j | i < j < n
        ensures fields[j].key !in keys
      {
        if j < n - 1 { assert fields[j] == prefix[j]; }
      }
    } else {
      forall i | 0 <= i < n
        ensures fields[i].key !in keys
      {
        if i < n - 1 { assert fields[i] == prefix[i]; }
      }
    }
  }

  /** The attribution `fields` produce from `acc`: each of user id and bet
      comes from the last field naming it, else stays as it was. */
  function LastAssignment(acc: Attribution, fields: seq<Field>, userOf: string -> Value, betOf: string -> Value): Attribution {
    Attribution(
      match LastValueFor(fields, UserKeys) case Some(v) => userOf(v) case None => acc.userId,
      match LastValueFor(fields, BetKeys) case Some(v) => betOf(v) case None => acc.betAmount)
  }

  /** Applying the fields one after the other agrees with the reference:
      a later matching key overrides an earlier one, and nothing else
      touches the attribution. */
  lemma {:induction false} AssignAllIsLastAssignment(acc: Attribution, fields: seq<Field>, userOf: string -> Value, betOf: string -> Value)
    ensures AssignAll(acc, fields, userOf, betOf) == LastAssignment(acc, fields, userOf, betOf)
    decreases |fields|
  {
    if fields != [] {
      var n := |fields|;
      var prefix, f := fields[..n - 1], fields[n - 1];
      assert prefix + [f] == fields;
      AssignAllSnoc(acc, prefix, f, userOf, betOf);
      AssignAllIsLastAssignment(acc, prefix, userOf, betOf);
      LastAssignmentSnoc(acc, prefix, f, userOf, betOf);
    }
  }

  /** One more field at the end updates the reference reading as `Assign`
      does. */
  lemma LastAssignmentSnoc(acc: Attribution, fields: seq<Field>, f: Field, userOf: string -> Value, betOf: string -> Value)
    ensures LastAssignment(acc, fields + [f], userOf, betOf) == Assign(LastAssignment(acc, fields, userOf, betOf), f, userOf, betOf)
  {
    LastValueForSnoc(fields, f, UserKeys);
    LastValueForSnoc(fields, f, BetKeys);
    KeysDisjoint(f.key);
    var a := LastAssignment(acc, fields, userOf, betOf);
    if f.key in UserKeys {
      assert LastAssignment(acc, fields + [f], userOf, betOf) == a.(userId := userOf(f.value));
    } else if f.key in BetKeys {
      assert LastAssignment(acc, fields + [f], userOf, betOf) == a.(betAmount := betOf(f.value));
    } else {
      assert LastAssignment(acc, fields + [f], userOf, betOf) == a;
    }
  }

  /** No key names both the user and the bet. */
  lemma KeysDisjoint(k: string)
    ensures !(k in UserKeys && k in BetKeys)
  {
    if k in UserKeys {
      assert k[0] == 'u';
    }
  }

  lemma LastValueForSnoc(fields: seq<Field>, f: Field, keys: set<string>)
    ensures LastValueFor(fields + [f], keys) == if f.key in keys then Some(f.value) else LastValueFor(fields, keys)
  {
    assert (fields + [f])[..|fields|] == fields;
  }

  /** Applying one more field at the end. */
  lemma {:induction false} AssignAllSnoc(acc: Attribution, fields: seq<Field>, f: Field, userOf: string -> Value, betOf: string -> Value)
    ensures AssignAll(acc, fields + [f], userOf, betOf) == Assign(AssignAll(acc, fields, userOf, betOf), f, userOf, betOf)
    decreases |fields|
  {
    if fields != [] {
      assert (fields + [f])[1..] == fields[1..] + [f];
      AssignAllSnoc(Assign(acc, fields[0], userOf, betOf), fields[1..], f, userOf, betOf);
    }
  }

  /* ---------------- updates and replies ---------------- */

  /** The `successful_payment` of a message: its invoice payload (empty when
      absent) and what decoding that payload as JSON gives (`None` when the
      decoder raises). */
  datatype Payment = Payment(invoicePayload: string, decoded: Option<JsonObject>)

  /** The message of an update: chat id, sender id if any, payment if any. */
  datatype Message = Message(chatId: int, fromId: Option<int>, payment: Option<Payment>)

  /** The parts of a Telegram update the handlers look at. */
  datatype Update = Update(preCheckoutQueryId: Option<string>, message: Option<Message>)

  /** A spin to perform after payment, and the chat told of its result. */
  datatype SpinCall = SpinCall(attribution: Attribution, notifyChatId: int)

  /** The handler's answer: 401 with nothing done, or an acknowledgement
      after answering the pre-checkout query and starting the spin. */
  datatype Reply =
    | Unauthorized
    | Acknowledged(answeredQuery: Option<string>, spin: Option<SpinCall>)

  /** The secret-token check: with no secret configured (empty) every
      request passes; otherwise the header must be present, non-empty and
      equal to the secret. */
  predicate SecretAccepted(secret: string, header: Option<string>) {
    secret == "" || (header.Some? && header.value != "" && header.value == secret)
  }

  /** The handler body shared by both servers once the secret is known;
      `attribute` is the server's payload parser. */
  function Handle(secret: string, header: Option<string>, update: Update,
                  attribute: (Payment, Message) -> Attribution): (r: Reply)
    ensures r == Unauthorized <==> secret != "" && header != Some(secret)
    ensures r.Acknowledged? ==> r.answeredQuery == update.preCheckoutQueryId
    ensures r.Acknowledged? ==> (r.spin.Some? <==> update.message.Some? && update.message.value.payment.Some?)
    ensures r.Acknowledged? && r.spin.Some? ==>
      r.spin.value.notifyChatId == update.message.value.chatId
      && r.spin.value.attribution == attribute(update.message.value.payment.value, update.message.value)
  {
    if !SecretAccepted(secret, header) then Unauthorized
    else
      var spin :=
        match update.message
        case Some(msg) =>
          (match msg.payment
           case Some(p) => Some(SpinCall(attribute(p, msg), msg.chatId))
           case None => None)
        case None => None;
      Acknowledged(update.preCheckoutQueryId, spin)
  }
}
