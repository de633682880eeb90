/** The Express server (PremiumHatStore/server/index.ts): loading the dice
    mapping with only `"seven"` rewritten, the spin, and the webhook's
    secret check and payload parsing with JavaScript's truthiness and
    `Number` coercion. */
module Express {
  import opened Wrappers
  import Text
  import Decimal
  import Slot
  import opened Webhook

  /* ---------------- dice mapping ---------------- */

  /** `s.toLowerCase() === "seven" ? "777" : s`: only the seven test looks
      at the lower-cased text; every other symbol keeps its case. */
  function NormalizeSymbol(s: string): (r: string)
    ensures Text.Lower(r) != "seven"
    ensures Text.Lower(s) == "seven" ==> r == "777"
    ensures Text.Lower(s) != "seven" ==> r == s
  {
    NotSeven("777");
    if Text.Lower(s) == "seven" then "777" else s
  }

  /** A triple the loader can store: no reel spells seven in any case. */
  predicate NoSeven(t: Slot.Triple) {
    Text.Lower(t.first) != "seven" && Text.Lower(t.second) != "seven" && Text.Lower(t.third) != "seven"
  }

  /** `loadDiceMapping`: the file's mapping when it has 64 keys, the
      fallback table when it has another count or cannot be read. */
  function LoadDiceMapping(file: Slot.MappingFile): (m: Slot.Mapping)
    ensures |m| == Slot.MappingSize || m == Slot.Fallback()
    ensures |m| == Slot.MappingSize <==> file.Entries? && |Slot.ValuesOf(file.entries)| == Slot.MappingSize
    ensures forall v :: v in m ==> NoSeven(m[v])
  {
    var m := Slot.Load(file, NormalizeSymbol);
    assert forall v :: v in m ==> NoSeven(m[v]) by {
      forall v | v in m
        ensures NoSeven(m[v])
      {
        if |m| == Slot.MappingSize {
          Slot.BuildOrigin(file.entries, NormalizeSymbol, v);
        } else {
          FallbackHasNoSeven(v);
        }
      }
    }
    m
  }

  lemma FallbackHasNoSeven(v: int)
    requires v in Slot.Fallback()
    ensures NoSeven(Slot.Fallback()[v])
  {
    var t := Slot.Fallback()[v];
    assert t.first == t.second == t.third;
    assert t.first in {"bar", "grape", "lemon", "777"};
    NotSeven(t.first);
  }

  /** A text not starting with an `s` of either case is no spelling of
      seven. */
  lemma NotSeven(s: string)
    requires s != [] && s[0] != 's' && s[0] != 'S'
    ensures Text.Lower(s) != "seven"
  {
    assert Text.Lower(s)[0] != 's';
  }

  /** Entries whose symbols are not any-case `"seven"` are stored as they
      are written. */
  lemma {:induction false} LoadKeepsOtherSymbols(file: Slot.MappingFile, v: int, i: int)
    requires file.Entries? && |Slot.ValuesOf(file.entries)| == Slot.MappingSize
    requires Slot.IsLastIndexOf(file.entries, v, i)
    requires var e := file.entries[i];
      Text.Lower(e.first) != "seven" && Text.Lower(e.second) != "seven" && Text.Lower(e.third) != "seven"
    ensures var e := file.entries[i];
      Slot.Lookup(LoadDiceMapping(file), v) == Slot.Triple(e.first, e.second, e.third)
  {
    Slot.LookupAfterLoad(file, NormalizeSymbol, v);
  }

  /** The pure part of `performSpin` over a mapping the loader produced:
      no reel it reports spells seven. */
  function PerformSpin(m: Slot.Mapping, diceValue: int, diceMessageId: int, user: string, bet: string): (r: Slot.SpinResult)
    requires forall v :: v in m ==> NoSeven(m[v])
    ensures |r.symbols| == 3
    ensures forall i :: 0 <= i < 3 ==> Text.Lower(r.symbols[i]) != "seven"
    ensures r.isJackpot <==> diceValue == Slot.JackpotValue
  {
    PlaceholderHasNoSeven();
    SymbolsHaveNoSeven(Slot.Lookup(m, diceValue));
    Slot.Resolve(m, diceValue, diceMessageId, user, bet)
  }

  lemma SymbolsHaveNoSeven(t: Slot.Triple)
    requires NoSeven(t)
    ensures |t.Symbols()| == 3
    ensures forall i :: 0 <= i < 3 ==> Text.Lower(t.Symbols()[i]) != "seven"
  {
    forall i | 0 <= i < 3
      ensures Text.Lower(t.Symbols()[i]) != "seven"
    {
      assert t.Symbols()[i] in {t.first, t.second, t.third};
    }
  }

  lemma PlaceholderHasNoSeven()
    ensures NoSeven(Slot.Placeholder)
  {
    var t := Slot.Placeholder;
    NotSeven(t.first);
    NotSeven(t.second);
    NotSeven(t.third);
  }

  /* ---------------- value coercion ---------------- */

  /** `Number(v)` on a trimmed field value: the empty text is 0, a run of
      ASCII digits is its value, anything else is `NaN` (`None`). */
  function JsNumber(v: string): (r: Option<int>)
    ensures r.Some? <==> v == "" || Decimal.IsDigits(v)
    ensures r.Some? ==> r.value >= 0
    ensures v == "" ==> r == Some(0)
  {
    if v == "" then Some(0)
    else if Decimal.IsDigits(v) then Some(Decimal.DigitsValue(v))
    else None
  }

  /** `isNaN(Number(v)) ? v : Number(v)`, for both the user id and the bet. */
  function NumberOrText(v: string): (r: Value)
    ensures r.Num? || r == Str(v)
    ensures r.Str? ==> v != "" && !Decimal.IsDigits(v)
    ensures r.Num? ==> JsNumber(v) == Some(r.n)
  {
    match JsNumber(v)
    case Some(n) => Num(n)
    case None => Str(v)
  }

  /* ---------------- webhook payload ---------------- */

  /** `const [k, v] = p.split(':').map(s => s.trim())`, skipping the part
      when `k` is empty or there is no second field. */
  function FieldOf(part: string): (r: Option<Field>)
    ensures ':' !in part ==> r.None?
    ensures r.Some? ==> r.value.key != [] && ':' !in r.value.key && ':' !in r.value.value
  {
    var fields := Text.Split(part, ':');
    if |fields| < 2 then None
    else
      var k := Text.Strip(fields[0]);
      if k == "" then None
      else
        StripKeepsOut(fields[0], ':');
        StripKeepsOut(fields[1], ':');
        Some(Field(k, Text.Strip(fields[1])))
  }

  /** Stripping a text adds no character to it. */
  lemma StripKeepsOut(s: string, c: char)
    requires c !in s
    ensures c !in Text.Strip(s)
  {
  }

  /** A part `a:b`, followed or not by further `:`-separated text, is read
      from its first two fields only: key `a`, value `b`, both stripped. */
  lemma {:induction false} FieldOfColon(a: string, b: string, rest: Option<string>)
    requires ':' !in a && ':' !in b
    ensures var part := if rest.Some? then a + [':'] + b + [':'] + rest.value else a + [':'] + b;
      FieldOf(part) == if Text.Strip(a) == "" then None else Some(Field(Text.Strip(a), Text.Strip(b)))
  {
    Text.SplitAtFirst(a, ':');
    Text.SplitAtFirst(b, ':');
    match rest
    case None =>
      Text.SplitAppend(a, b, ':');
    case Some(c) =>
      assert a + [':'] + b + [':'] + c == a + [':'] + (b + [':'] + c);
      Text.SplitAppend(a, b + [':'] + c, ':');
      Text.SplitAppend(b, c, ':');
      assert (Text.Split(a, ':') + Text.Split(b + [':'] + c, ':'))[1] == b;
  }

  /** The fields of the parts, in order. */
  function FieldsOf(parts: seq<string>): (fs: seq<Field>)
    ensures |fs| <= |parts|
    ensures forall j :: 0 <= j < |fs| ==> fs[j].key != [] && ':' !in fs[j].key
  {
    if parts == [] then []
    else
      match FieldOf(parts[0])
      case Some(f) =>
        var rest := FieldsOf(parts[1..]);
        KeysOfCons(f, rest);
        [f] + rest
      case None => FieldsOf(parts[1..])
  }

  lemma KeysOfCons(f: Field, fs: seq<Field>)
    requires f.key != [] && ':' !in f.key
    requires forall j :: 0 <= j < |fs| ==> fs[j].key != [] && ':' !in fs[j].key
    ensures forall j :: 0 <= j < |[f] + fs| ==> ([f] + fs)[j].key != [] && ':' !in ([f] + fs)[j].key
  {
  }

  /** The payload handling of the webhook: defaults from the sender or
      chat; in a JSON payload `userId` and `betAmount` replace them only
      when truthy; a naive payload's fields are applied in order.  A JSON
      decoding error keeps the defaults. */
  function ParsePayload(payload: string, decoded: Option<JsonObject>, fromId: Option<int>, chatId: int): (a: Attribution)
    ensures payload == "" || (IsJsonPayload(payload) && decoded.None?) ==> a == DefaultAttribution(fromId, chatId)
    ensures payload != "" && IsJsonPayload(payload) && decoded.Some? ==>
      && (a.userId == if "userId" in decoded.value && Truthy(decoded.value["userId"]) then decoded.value["userId"]
                      else DefaultAttribution(fromId, chatId).userId)
      && (a.betAmount == if "betAmount" in decoded.value && Truthy(decoded.value["betAmount"]) then decoded.value["betAmount"]
                         else Num(0))
    ensures payload != "" && !IsJsonPayload(payload) ==>
      a == LastAssignment(DefaultAttribution(fromId, chatId), FieldsOf(Text.SplitAny(payload, Separators)), NumberOrText, NumberOrText)
  {
    var default := DefaultAttribution(fromId, chatId);
    if payload == "" then default
    else if IsJsonPayload(payload) then
      match decoded
      case None => default
      case Some(obj) =>
        var user := if "userId" in obj && Truthy(obj["userId"]) then obj["userId"] else default.userId;
        var bet := if "betAmount" in obj && Truthy(obj["betAmount"]) then obj["betAmount"] else Num(0);
        Attribution(user, bet)
    else
      var fields := FieldsOf(Text.SplitAny(payload, Separators));
      AssignAllIsLastAssignment(default, fields, NumberOrText, NumberOrText);
      AssignAll(default, fields, NumberOrText, NumberOrText)
  }

  /** A falsy JSON value never replaces anything: whatever `userId` and
      `betAmount` decode to, falsy values leave the defaults in place. */
  lemma FalsyJsonKeepsDefaults(payload: string, obj: JsonObject, fromId: Option<int>, chatId: int)
    requires payload != "" && IsJsonPayload(payload)
    requires forall k :: k in obj ==> !Truthy(obj[k])
    ensures ParsePayload(payload, Some(obj), fromId, chatId) == DefaultAttribution(fromId, chatId)
  {
  }

  /* ---------------- webhook ---------------- */

  /** `process.env.TELEGRAM_WEBHOOK_SECRET || process.env.WEBHOOK_SECRET || null`:
      an empty variable counts as unset; `""` stands for `null`. */
  function WebhookSecret(telegramSecret: Option<string>, genericSecret: Option<string>): (s: string)
    ensures s != "" <==> (telegramSecret.Some? && telegramSecret.value != "") || (genericSecret.Some? && genericSecret.value != "")
    ensures telegramSecret.Some? && telegramSecret.value != "" ==> s == telegramSecret.value
    ensures s != "" && s != telegramSecret.GetOr("") ==> genericSecret == Some(s)
  {
    if telegramSecret.Some? && telegramSecret.value != "" then telegramSecret.value
    else genericSecret.GetOr("")
  }

  /** The payment attribution the handler computes from a message. */
  function Attribute(p: Payment, msg: Message): Attribution {
    ParsePayload(p.invoicePayload, p.decoded, msg.fromId, msg.chatId)
  }

  /** The `/api/telegram-webhook` handler: 401 when a secret is configured
      and the header is missing or differs; otherwise the pre-checkout
      query is answered and a paid message starts a spin. */
  function HandleWebhook(telegramSecret: Option<string>, genericSecret: Option<string>,
                         header: Option<string>, update: Update): (r: Reply)
    ensures r == Unauthorized <==>
      WebhookSecret(telegramSecret, genericSecret) != "" && header != Some(WebhookSecret(telegramSecret, genericSecret))
    ensures r == Unauthorized ==> telegramSecret.Some? || genericSecret.Some?
    ensures telegramSecret == Some("") && genericSecret.Some? && genericSecret.value != "" ==>
      (r == Unauthorized <==> header != genericSecret)
    ensures r.Acknowledged? && r.spin.Some? ==>
      update.message.Some? && update.message.value.payment.Some?
      && r.spin.value.attribution == Attribute(update.message.value.payment.value, update.message.value)
  {
    Handle(WebhookSecret(telegramSecret, genericSecret), header, update, Attribute)
  }
}
