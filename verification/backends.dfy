/** Where the FastAPI and Express servers agree and where they part: the
    symbol normalisation, the reading of naive payload fields, the JSON
    branch, value conversion, the webhook secret, and the invoice payload
    the FastAPI server writes and both servers read back. */
module Backends {
  import opened Wrappers
  import Text
  import Decimal
  import Slot
  import opened Webhook
  import FastApi
  import Express

  /* ---------------- dice mapping ---------------- */

  /** On lower-case symbols the two normalisations coincide. */
  lemma NormalizersAgreeOnLowerCase(s: string)
    requires Text.NoUpper(s)
    ensures FastApi.NormalizeSymbol(s) == Express.NormalizeSymbol(s)
  {
  }

  /** A file written in lower case loads to the same mapping in both
      servers. */
  lemma LoadsAgreeOnLowerCase(file: Slot.MappingFile)
    requires file.Entries? ==> forall i :: 0 <= i < |file.entries| ==>
      Text.NoUpper(file.entries[i].first) && Text.NoUpper(file.entries[i].second) && Text.NoUpper(file.entries[i].third)
    ensures FastApi.LoadDiceMapping(file) == Express.LoadDiceMapping(file)
  {
    if file.Entries? {
      forall i | 0 <= i < |file.entries|
        ensures Slot.Normalized(file.entries[i], FastApi.NormalizeSymbol) == Slot.Normalized(file.entries[i], Express.NormalizeSymbol)
      {
        var e := file.entries[i];
        NormalizersAgreeOnLowerCase(e.first);
        NormalizersAgreeOnLowerCase(e.second);
        NormalizersAgreeOnLowerCase(e.third);
      }
    }
    Slot.LoadAgrees(file, FastApi.NormalizeSymbol, Express.NormalizeSymbol);
  }

  /** A symbol with an upper-case letter that is not a spelling of seven is
      stored lower-cased by one server and as written by the other. */
  lemma NormalizersDifferOnUpperCase(s: string)
    requires !Text.NoUpper(s) && Text.Lower(s) != "seven"
    ensures FastApi.NormalizeSymbol(s) == Text.Lower(s)
    ensures Express.NormalizeSymbol(s) == s
    ensures FastApi.NormalizeSymbol(s) != Express.NormalizeSymbol(s)
  {
  }

  /** A record `BAR, bar, bar` (any reel in another case than the others)
      is a win for the FastAPI server and a loss for the Express server. */
  lemma {:induction false} CaseDecidesWin(file: Slot.MappingFile, v: int, i: int, diceMessageId: int, user: string, bet: string)
    requires file.Entries? && |Slot.ValuesOf(file.entries)| == Slot.MappingSize
    requires Slot.IsLastIndexOf(file.entries, v, i)
    requires v != Slot.JackpotValue
    requires var e := file.entries[i];
      && !Text.NoUpper(e.first) && e.second == e.third == Text.Lower(e.first) && e.second != "seven"
    ensures FastApi.PerformSpin(FastApi.LoadDiceMapping(file), v, diceMessageId, user, bet).Status() == Slot.Win
    ensures Express.PerformSpin(Express.LoadDiceMapping(file), v, diceMessageId, user, bet).Status() == Slot.Lose
  {
    var e := file.entries[i];
    Text.LowerIdempotent(e.first);
    Slot.LookupAfterLoad(file, FastApi.NormalizeSymbol, v);
    Slot.LookupAfterLoad(file, Express.NormalizeSymbol, v);
    assert Express.NormalizeSymbol(e.first) == e.first;
    assert Express.NormalizeSymbol(e.second) == e.second;
  }

  /* ---------------- naive payload fields ---------------- */

  /** A part `a:b` with one colon and a non-blank key reads the same. */
  lemma FieldsAgreeOnOneColon(a: string, b: string)
    requires ':' !in a && ':' !in b && Text.Strip(a) != ""
    ensures FastApi.FieldOf(a + [':'] + b) == Express.FieldOf(a + [':'] + b) == Some(Field(Text.Strip(a), Text.Strip(b)))
  {
    PythonFieldOf(a, b);
    Express.FieldOfColon(a, b, None);
  }

  /** The FastAPI server splits a part at its first colon. */
  lemma PythonFieldOf(a: string, v: string)
    requires ':' !in a
    ensures FastApi.FieldOf(a + [':'] + v) == Some(Field(Text.Strip(a), Text.Strip(v)))
  {
    Text.SplitOnceUnique(a, v, ':');
  }

  /** A part `a:b:c`: the FastAPI server keeps `b:c` as the value, the
      Express server only `b`. */
  lemma FieldsDifferOnSecondColon(a: string, b: string, c: string)
    requires ':' !in a && ':' !in b && Text.Strip(a) != ""
    ensures FastApi.FieldOf(a + [':'] + b + [':'] + c) == Some(Field(Text.Strip(a), Text.Strip(b + [':'] + c)))
    ensures Express.FieldOf(a + [':'] + b + [':'] + c) == Some(Field(Text.Strip(a), Text.Strip(b)))
    ensures ':' in Text.Strip(b + [':'] + c) && ':' !in Text.Strip(b)
  {
    PythonKeepsSecondColon(a, b, c);
    Express.FieldOfColon(a, b, Some(c));
    ColonSurvivesStrip(b, c);
    Express.StripKeepsOut(b, ':');
  }

  lemma PythonKeepsSecondColon(a: string, b: string, c: string)
    requires ':' !in a
    ensures FastApi.FieldOf(a + [':'] + b + [':'] + c) == Some(Field(Text.Strip(a), Text.Strip(b + [':'] + c)))
  {
    assert a + [':'] + b + [':'] + c == a + [':'] + (b + [':'] + c);
    PythonFieldOf(a, b + [':'] + c);
  }

  lemma ColonSurvivesStrip(b: string, c: string)
    ensures ':' in Text.Strip(b + [':'] + c)
  {
    var bc := b + [':'] + c;
    assert bc[|b|] == ':';
    StripKeepsNonSpace(bc, |b|);
  }

  /** Stripping keeps every character that is not whitespace. */
  lemma StripKeepsNonSpace(s: string, k: int)
    requires 0 <= k < |s| && !Text.IsSpace(s[k])
    ensures s[k] in Text.Strip(s)
  {
    var r := Text.Strip(s);
    var lead := Text.LeadingSpaces(s);
    assert lead <= k < lead + |r|;
    assert r[k - lead] == s[k];
  }

  /* ---------------- value conversion ---------------- */

  /** Digit strings convert alike; a non-numeric bet is 0 for one server
      and kept as text by the other; an empty value is text for one and 0
      for the other. */
  lemma ValueConversions(v: string)
    ensures Decimal.IsDigits(v) ==>
      FastApi.UserValue(v) == FastApi.BetValue(v) == Express.NumberOrText(v) == Num(Decimal.DigitsValue(v))
    ensures v != "" && !Decimal.IsDigits(v) ==> FastApi.BetValue(v) == Num(0) && Express.NumberOrText(v) == Str(v)
    ensures v != "" && !Decimal.IsDigits(v) ==> FastApi.UserValue(v) == Express.NumberOrText(v) == Str(v)
    ensures v == "" ==> FastApi.UserValue(v) == Str("") && FastApi.BetValue(v) == Num(0) && Express.NumberOrText(v) == Num(0)
  {
  }

  /** A user field as the FastAPI loop is written, against Express: a
      digit run is the same number in both; text that fails `isdigit` is
      kept by both; text that `isdigit` accepts and `int` refuses stops
      the FastAPI loop while Express keeps it as the user. */
  lemma UserFieldAsWritten(acc: Attribution, f: Field)
    requires f.key in UserKeys
    ensures Decimal.IsDigits(f.value) ==>
      FastApi.AssignAsWritten(acc, f) == Some(acc.(userId := Express.NumberOrText(f.value)))
    ensures f.value != "" && !FastApi.PyIsDigit(f.value) ==>
      FastApi.AssignAsWritten(acc, f) == Some(acc.(userId := Str(f.value))) && Express.NumberOrText(f.value) == Str(f.value)
    ensures FastApi.PyIsDigit(f.value) && !Decimal.IsDigits(f.value) ==>
      FastApi.AssignAsWritten(acc, f).None? && Express.NumberOrText(f.value) == Str(f.value)
  {
    ValueConversions(f.value);
    if Decimal.IsDigits(f.value) {
      assert FastApi.PyIsDigit(f.value);
    }
  }

  /** A part both servers read alike: no colon at all, or one colon after
      a non-blank key, with a decimal value when the key is recognised. */
  predicate SimplePart(part: string) {
    match Text.SplitOnce(part, ':')
    case None => true
    case Some((a, b)) =>
      ':' !in b && Text.Strip(a) != ""
      && (Text.Strip(a) in UserKeys || Text.Strip(a) in BetKeys ==> Decimal.IsDigits(Text.Strip(b)))
  }

  /** A field whose value is decimal whenever its key is recognised. */
  predicate DecimalWhereRead(f: Field) {
    f.key in UserKeys || f.key in BetKeys ==> Decimal.IsDigits(f.value)
  }

  lemma {:induction false} FieldsAgreeOnSimpleParts(parts: seq<string>)
    requires forall i :: 0 <= i < |parts| ==> SimplePart(parts[i])
    ensures FastApi.FieldsOf(parts) == Express.FieldsOf(parts)
    ensures forall j :: 0 <= j < |FastApi.FieldsOf(parts)| ==> DecimalWhereRead(FastApi.FieldsOf(parts)[j])
    decreases |parts|
  {
    if parts != [] {
      var rest := parts[1..];
      SimplePartAgrees(parts[0]);
      assert forall i :: 0 <= i < |rest| ==> SimplePart(rest[i]) by {
        assert forall i :: 0 <= i < |rest| ==> rest[i] == parts[i + 1];
      }
      FieldsAgreeOnSimpleParts(rest);
      var fs := FastApi.FieldsOf(rest);
      match FastApi.FieldOf(parts[0])
      case Some(f) =>
        assert FastApi.FieldsOf(parts) == [f] + fs;
        assert Express.FieldsOf(parts) == [f] + fs;
        ConsDecimalWhereRead(f, fs);
      case None =>
        assert FastApi.FieldsOf(parts) == fs;
        assert Express.FieldsOf(parts) == fs;
    }
  }

  lemma ConsDecimalWhereRead(f: Field, fs: seq<Field>)
    requires DecimalWhereRead(f)
    requires forall j :: 0 <= j < |fs| ==> DecimalWhereRead(fs[j])
    ensures forall j :: 0 <= j < |[f] + fs| ==> DecimalWhereRead(([f] + fs)[j])
  {
  }

  lemma SimplePartAgrees(part: string)
    requires SimplePart(part)
    ensures FastApi.FieldOf(part) == Express.FieldOf(part)
    ensures FastApi.FieldOf(part).Some? ==> DecimalWhereRead(FastApi.FieldOf(part).value)
  {
    match Text.SplitOnce(part, ':')
    case None =>
    case Some((a, b)) =>
      FieldsAgreeOnOneColon(a, b);
  }

  lemma {:induction false} AssignAllAgreesOnDecimals(acc: Attribution, fields: seq<Field>)
    requires forall j :: 0 <= j < |fields| ==> DecimalWhereRead(fields[j])
    ensures AssignAll(acc, fields, FastApi.UserValue, FastApi.BetValue)
         == AssignAll(acc, fields, Express.NumberOrText, Express.NumberOrText)
    decreases |fields|
  {
    if fields != [] {
      var f := fields[0];
      ValueConversions(f.value);
      assert Assign(acc, f, FastApi.UserValue, FastApi.BetValue) == Assign(acc, f, Express.NumberOrText, Express.NumberOrText);
      AssignAllAgreesOnDecimals(Assign(acc, f, FastApi.UserValue, FastApi.BetValue), fields[1..]);
    }
  }

  /** A naive payload made of simple parts attributes the payment alike in
      both servers. */
  lemma NaivePayloadsAgree(payload: string, decoded: Option<JsonObject>, fromId: Option<int>, chatId: int)
    requires payload != "" && !IsJsonPayload(payload)
    requires forall i :: 0 <= i < |Text.SplitAny(payload, Separators)| ==> SimplePart(Text.SplitAny(payload, Separators)[i])
    ensures FastApi.ParsePayload(payload, decoded, fromId, chatId) == Express.ParsePayload(payload, decoded, fromId, chatId)
    ensures FastApi.ParsePayloadAsWritten(payload, decoded, fromId, chatId) == Express.ParsePayload(payload, decoded, fromId, chatId)
  {
    var parts := Text.SplitAny(payload, Separators);
    var d := DefaultAttribution(fromId, chatId);
    FieldsAgreeOnSimpleParts(parts);
    var fields := FastApi.FieldsOf(parts);
    AssignAllIsLastAssignment(d, fields, FastApi.UserValue, FastApi.BetValue);
    AssignAllIsLastAssignment(d, fields, Express.NumberOrText, Express.NumberOrText);
    AssignAllAgreesOnDecimals(d, fields);
    FastApi.PayloadPartsSplitOnSeparators(payload);
    DecimalFieldsDoNotRaise(fields);
  }

  /** Fields whose recognised values are decimal never make `int` raise. */
  lemma DecimalFieldsDoNotRaise(fields: seq<Field>)
    requires forall j :: 0 <= j < |fields| ==> DecimalWhereRead(fields[j])
    ensures FastApi.NoneRaises(fields)
  {
    forall j | 0 <= j < |fields|
      ensures !FastApi.Raises(fields[j])
    {
      assert DecimalWhereRead(fields[j]);
    }
  }

  /* ---------------- JSON branch ---------------- */

  /** A falsy `userId` or `betAmount` in a JSON payload is taken by the
      FastAPI server and ignored by the Express server; truthy values are
      taken by both. */
  lemma JsonFalsyValues(payload: string, obj: JsonObject, fromId: Option<int>, chatId: int)
    requires payload != "" && IsJsonPayload(payload)
    ensures var py := FastApi.ParsePayload(payload, Some(obj), fromId, chatId);
      var ts := Express.ParsePayload(payload, Some(obj), fromId, chatId);
      && ("userId" in obj && !Truthy(obj["userId"]) ==>
            py.userId == obj["userId"] && ts.userId == DefaultAttribution(fromId, chatId).userId)
      && ("betAmount" in obj && !Truthy(obj["betAmount"]) ==>
            py.betAmount == obj["betAmount"] && ts.betAmount == Num(0))
      && ((forall k :: k in obj ==> Truthy(obj[k])) ==> py == ts)
  {
  }

  /* ---------------- webhook secret ---------------- */

  /** The secrets agree unless `TELEGRAM_WEBHOOK_SECRET` is set to the
      empty text; then the FastAPI server checks nothing and the Express
      server checks `WEBHOOK_SECRET`. */
  lemma SecretsAgreeUnlessEmptyTelegramSecret(telegramSecret: Option<string>, genericSecret: Option<string>)
    ensures telegramSecret != Some("") ==>
      FastApi.WebhookSecret(telegramSecret, genericSecret) == Express.WebhookSecret(telegramSecret, genericSecret)
    ensures telegramSecret == Some("") ==>
      FastApi.WebhookSecret(telegramSecret, genericSecret) == ""
      && Express.WebhookSecret(telegramSecret, genericSecret) == genericSecret.GetOr("")
  {
  }

  /** With `TELEGRAM_WEBHOOK_SECRET` empty and `WEBHOOK_SECRET` set, a
      request without the header is processed by one server and refused
      by the other. */
  lemma EmptyTelegramSecretDivergence(secret: string, update: Update)
    requires secret != ""
    ensures FastApi.HandleWebhook(Some(""), Some(secret), None, update).Acknowledged?
    ensures Express.HandleWebhook(Some(""), Some(secret), None, update) == Unauthorized
  {
    SecretsAgreeUnlessEmptyTelegramSecret(Some(""), Some(secret));
  }

  /* ---------------- invoice round trip ---------------- */

  /** The payload the FastAPI server puts on an invoice, decoded as JSON,
      attributes the payment to the invoice's user and bet in both
      servers. */
  lemma InvoicePayloadRoundTrip(userId: Option<int>, betAmount: int, fromId: Option<int>, chatId: int)
    requires betAmount >= 1
    ensures var payload := FastApi.CreateInvoicePayload(userId, betAmount).value;
      var decoded := FastApi.DecodeInvoicePayload(payload);
      && FastApi.ParsePayload(payload, decoded, fromId, chatId) == Attribution(FastApi.InvoiceUser(userId), Num(betAmount))
      && Express.ParsePayload(payload, decoded, fromId, chatId) == Attribution(FastApi.InvoiceUser(userId), Num(betAmount))
  {
    var payload := FastApi.CreateInvoicePayload(userId, betAmount).value;
    TwoKeyObjectReads(payload, FastApi.InvoiceUser(userId), betAmount, fromId, chatId);
  }

  /** A JSON payload decoded to a truthy user and a non-zero bet is read
      the same way by both servers. */
  lemma TwoKeyObjectReads(payload: string, u: Value, b: int, fromId: Option<int>, chatId: int)
    requires payload != "" && IsJsonPayload(payload)
    requires Truthy(u) && b != 0
    ensures var obj := map["userId" := u, "betAmount" := Num(b)];
      && FastApi.ParsePayload(payload, Some(obj), fromId, chatId) == Attribution(u, Num(b))
      && Express.ParsePayload(payload, Some(obj), fromId, chatId) == Attribution(u, Num(b))
  {
  }
}
