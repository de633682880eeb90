/** The FastAPI server (server/main.py): loading the dice mapping with
    lower-cased symbols, the spin, the invoice payload it creates, the
    webhook's secret check and payload parsing. */
module FastApi {
  import opened Wrappers
  import Text
  import Decimal
  import Slot
  import opened Webhook

  /* ---------------- dice mapping ---------------- */

  /** Every symbol is lower-cased, then `"seven"` becomes `"777"`. */
  function NormalizeSymbol(s: string): (r: string)
    ensures Text.NoUpper(r) && r != "seven"
    ensures r == "777" <==> Text.Lower(s) == "seven" || Text.Lower(s) == "777"
    ensures Text.Lower(s) != "seven" ==> r == Text.Lower(s)
  {
    var lowered := Text.Lower(s);
    if lowered == "seven" then "777" else lowered
  }

  /** A symbol as the loader leaves it: lower-case and never `"seven"`. */
  predicate NormalSymbol(s: string) {
    Text.NoUpper(s) && s != "seven"
  }

  predicate NormalTriple(t: Slot.Triple) {
    NormalSymbol(t.first) && NormalSymbol(t.second) && NormalSymbol(t.third)
  }

  /** `load_dice_mapping`: the file's mapping when it names 64 values,
      the fallback table otherwise; every stored symbol is normalised. */
  function LoadDiceMapping(file: Slot.MappingFile): (m: Slot.Mapping)
    ensures |m| == Slot.MappingSize || m == Slot.Fallback()
    ensures |m| == Slot.MappingSize <==> file.Entries? && |Slot.ValuesOf(file.entries)| == Slot.MappingSize
    ensures forall v :: v in m ==> NormalTriple(m[v])
  {
    var m := Slot.Load(file, NormalizeSymbol);
    assert forall v :: v in m ==> NormalTriple(m[v]) by {
      forall v | v in m
        ensures NormalTriple(m[v])
      {
        if |m| == Slot.MappingSize {
          StoredIsNormal(file.entries, v);
        } else {
          FallbackIsNormal(v);
        }
      }
    }
    m
  }

  /** A stored triple is some record normalised, hence normal. */
  lemma StoredIsNormal(entries: seq<Slot.Entry>, v: int)
    requires v in Slot.Build(entries, NormalizeSymbol)
    ensures NormalTriple(Slot.Build(entries, NormalizeSymbol)[v])
  {
    Slot.BuildOrigin(entries, NormalizeSymbol, v);
    var i :| 0 <= i < |entries| && entries[i].value == v
             && Slot.Build(entries, NormalizeSymbol)[v] == Slot.Normalized(entries[i], NormalizeSymbol);
    var e := entries[i];
    assert NormalSymbol(NormalizeSymbol(e.first));
    assert NormalSymbol(NormalizeSymbol(e.second));
    assert NormalSymbol(NormalizeSymbol(e.third));
  }

  lemma FallbackIsNormal(v: int)
    requires v in Slot.Fallback()
    ensures NormalTriple(Slot.Fallback()[v])
  {
    var t := Slot.Fallback()[v];
    assert t.first == t.second == t.third;
    assert t.first in {"bar", "grape", "lemon", "777"};
  }

  /** The pure part of `perform_spin` over a mapping the loader produced:
      the reels it reports are normalised symbols. */
  function PerformSpin(m: Slot.Mapping, diceValue: int, diceMessageId: int, user: string, bet: string): (r: Slot.SpinResult)
    requires forall v :: v in m ==> NormalTriple(m[v])
    ensures |r.symbols| == 3
    ensures forall i :: 0 <= i < 3 ==> NormalSymbol(r.symbols[i])
    ensures r.isJackpot <==> diceValue == Slot.JackpotValue
  {
    PlaceholderIsNormal();
    SymbolsAreNormal(Slot.Lookup(m, diceValue));
    Slot.Resolve(m, diceValue, diceMessageId, user, bet)
  }

  lemma SymbolsAreNormal(t: Slot.Triple)
    requires NormalTriple(t)
    ensures |t.Symbols()| == 3
    ensures forall i :: 0 <= i < 3 ==> NormalSymbol(t.Symbols()[i])
  {
    assert t.Symbols()[0] == t.first && t.Symbols()[1] == t.second && t.Symbols()[2] == t.third;
  }

  lemma PlaceholderIsNormal()
    ensures NormalTriple(Slot.Placeholder)
  {
    LowerWord("bar");
    LowerWord("lemon");
    LowerWord("grape");
  }

  /** A word of lower-case letters other than `seven` is normal. */
  lemma LowerWord(w: string)
    requires forall i :: 0 <= i < |w| ==> 'a' <= w[i] <= 'z'
    requires w != "seven"
    ensures NormalSymbol(w)
  {
  }

  /* ---------------- invoice payload ---------------- */

  /** `user_id or "unknown"`: a missing or zero user id is replaced. */
  function InvoiceUser(userId: Option<int>): (v: Value)
    ensures Truthy(v)
    ensures v.Num? <==> userId.Some? && userId.value != 0
    ensures v.Num? ==> v.n == userId.value
    ensures !v.Num? ==> v == Str("unknown")
  {
    match userId
    case Some(u) => if u != 0 then Num(u) else Str("unknown")
    case None => Str("unknown")
  }

  /** The object `json.dumps` encodes into the invoice payload. */
  function InvoicePayloadObject(userId: Option<int>, betAmount: int): JsonObject {
    map["userId" := InvoiceUser(userId), "betAmount" := Num(betAmount)]
  }

  /** `json.dumps` writes the two keys in insertion order with its default
      separators `, ` and `: `; these are the texts around the values. */
  const InvoiceHead: string := "{\"userId\": "
  const InvoiceMiddle: string := ", \"betAmount\": "

  /** How `json.dumps` writes the invoice's user: an integer in decimal,
      the placeholder as a JSON string. */
  function UserText(v: Value): string {
    match v
    case Num(n) => Decimal.IntToString(n)
    case _ => "\"unknown\""
  }

  /** The payload text: `json.dumps({"userId": ..., "betAmount": ...})`.
      The request model rejects a bet below 1, so there is no payload for
      it. */
  function CreateInvoicePayload(userId: Option<int>, betAmount: int): (r: Option<string>)
    ensures r.Some? <==> betAmount >= 1
    ensures r.Some? ==> r.value != "" && IsJsonPayload(r.value)
    ensures r.Some? ==> DecodeInvoicePayload(r.value) == Some(InvoicePayloadObject(userId, betAmount))
  {
    if betAmount < 1 then None
    else
      var text := InvoiceHead + UserText(InvoiceUser(userId)) + InvoiceMiddle + Decimal.IntToString(betAmount) + "}";
      InvoiceTextDecodes(userId, betAmount);
      Some(text)
  }

  /* ---------------- reading the invoice payload back ---------------- */

  /** A JSON integer literal in decimal, with an optional minus sign. */
  function ReadInt(t: string): (r: Option<int>)
    ensures r.Some? ==> t != [] && (t[0] == '-' ==> r.value <= 0) && (t[0] != '-' ==> r.value >= 0)
  {
    if t != [] && t[0] == '-' && Decimal.IsDigits(t[1..]) then
      var n: int := Decimal.DigitsValue(t[1..]);
      Some(-n)
    else if Decimal.IsDigits(t) then Some(Decimal.DigitsValue(t))
    else None
  }

  /** An integer rendered in decimal reads back as itself. */
  lemma ReadIntOfRendering(n: int)
    ensures ReadInt(Decimal.IntToString(n)) == Some(n)
  {
    var t := Decimal.IntToString(n);
    if n >= 0 {
      assert Decimal.IsDigit(t[0]);
    }
  }

  /** A JSON user value: a string literal without quotes or escapes
      inside, or an integer. */
  function ReadUser(t: string): (r: Option<Value>)
    ensures r.Some? ==> r.value.Num? || r.value.Str?
  {
    if |t| >= 2 && t[0] == '"' && t[|t| - 1] == '"' && '"' !in t[1..|t| - 1] && '\\' !in t[1..|t| - 1] then
      Some(Str(t[1..|t| - 1]))
    else
      match ReadInt(t)
      case Some(n) => Some(Num(n))
      case None => None
  }

  /** `json.loads` on the texts `CreateInvoicePayload` writes: the object
      of the two keys, read back from the text around the one comma.  Other
      texts without that two-key shape give `None`; within it, integers with
      leading zeros and strings holding raw control characters are read,
      though `json.loads` refuses them. */
  function DecodeInvoicePayload(text: string): (r: Option<JsonObject>)
    ensures r.Some? ==> r.value.Keys == {"userId", "betAmount"} && r.value["betAmount"].Num?
    ensures r.Some? ==> IsJsonPayload(text)
  {
    match Text.SplitOnce(text, ',')
    case None => None
    case Some((head, tail)) =>
      var r := DecodeAroundComma(head, [','] + tail);
      if r.Some? then
        HeadIsJson(text, head);
        r
      else r
  }

  /** The two halves of an invoice text: `{"userId": ` and the user before
      the comma, `, "betAmount": ` and the bet and `}` from it on. */
  function DecodeAroundComma(head: string, rest: string): (r: Option<JsonObject>)
    ensures r.Some? ==> Text.StartsWith(head, InvoiceHead)
    ensures r.Some? ==> r.value.Keys == {"userId", "betAmount"} && r.value["betAmount"].Num?
  {
    if Text.StartsWith(head, InvoiceHead) && Text.StartsWith(rest, InvoiceMiddle)
       && |rest| > |InvoiceMiddle| && rest[|rest| - 1] == '}' then
      match (ReadUser(head[|InvoiceHead|..]), ReadInt(rest[|InvoiceMiddle|..|rest| - 1]))
      case (Some(u), Some(b)) => Some(map["userId" := u, "betAmount" := Num(b)])
      case _ => None
    else None
  }

  /** A text opening with the invoice head is read as JSON. */
  lemma HeadIsJson(text: string, head: string)
    requires Text.StartsWith(head, InvoiceHead) && Text.SplitOnce(text, ',').Some? && Text.SplitOnce(text, ',').value.0 == head
    ensures IsJsonPayload(text)
  {
    InvoiceFrame();
    assert text[0] == head[0] == InvoiceHead[0] == '{';
    BraceFirstIsJson(text);
  }

  /** The user's text holds no comma and reads back as the user. */
  lemma UserTextReads(userId: Option<int>)
    ensures ',' !in UserText(InvoiceUser(userId))
    ensures ReadUser(UserText(InvoiceUser(userId))) == Some(InvoiceUser(userId))
  {
    var t := UserText(InvoiceUser(userId));
    if InvoiceUser(userId).Num? {
      ReadIntOfRendering(InvoiceUser(userId).n);
      assert t[0] != '"';
      if InvoiceUser(userId).n < 0 {
        assert forall i :: 1 <= i < |t| ==> t[i] == t[1..][i - 1];
      }
    } else {
      UnknownReads();
    }
  }

  /** The placeholder's JSON string reads back as the placeholder. */
  lemma UnknownReads()
    ensures ',' !in "\"unknown\""
    ensures ReadUser("\"unknown\"") == Some(Str("unknown"))
  {
    var t := "\"unknown\"";
    assert t[1..|t| - 1] == "unknown";
    assert '"' !in "unknown" && '\\' !in "unknown";
  }

  /** The texts around the values: the head holds no comma, and the
      middle starts with it. */
  lemma InvoiceFrame()
    ensures ',' !in InvoiceHead
    ensures InvoiceMiddle[0] == ','
    ensures InvoiceHead[0] == '{'
  {
  }

  /** The invoice text decodes to the object it was written from. */
  lemma InvoiceTextDecodes(userId: Option<int>, betAmount: int)
    ensures var text := InvoiceHead + UserText(InvoiceUser(userId)) + InvoiceMiddle + Decimal.IntToString(betAmount) + "}";
      DecodeInvoicePayload(text) == Some(InvoicePayloadObject(userId, betAmount))
  {
    var user, bet := UserText(InvoiceUser(userId)), Decimal.IntToString(betAmount);
    UserTextReads(userId);
    ReadIntOfRendering(betAmount);
    InvoiceSplits(user, bet);
    HeadReads(user);
    RestReads(bet);
  }

  /** The invoice text splits at the comma after the user. */
  lemma InvoiceSplits(user: string, bet: string)
    requires ',' !in user
    ensures var tail := InvoiceMiddle[1..] + bet + "}";
      && Text.SplitOnce(InvoiceHead + user + InvoiceMiddle + bet + "}", ',') == Some((InvoiceHead + user, tail))
      && [','] + tail == InvoiceMiddle + bet + "}"
  {
    InvoiceFrame();
    var head, tail := InvoiceHead + user, InvoiceMiddle[1..] + bet + "}";
    CommaThenTail(InvoiceHead, user, InvoiceMiddle, bet, "}");
    Text.SplitOnceUnique(head, tail, ',');
  }

  /** Concatenation around a middle text that starts with a comma. */
  lemma CommaThenTail(a: string, b: string, m: string, c: string, d: string)
    requires m != [] && m[0] == ','
    ensures a + b + m + c + d == (a + b) + [','] + (m[1..] + c + d)
    ensures [','] + (m[1..] + c + d) == m + c + d
  {
    assert m == [','] + m[1..];
  }

  /** The head half gives back the user's text. */
  lemma HeadReads(user: string)
    ensures Text.StartsWith(InvoiceHead + user, InvoiceHead)
    ensures (InvoiceHead + user)[|InvoiceHead|..] == user
  {
    assert (InvoiceHead + user)[..|InvoiceHead|] == InvoiceHead;
  }

  /** The rest gives back the bet's text. */
  lemma RestReads(bet: string)
    ensures var rest := InvoiceMiddle + bet + "}";
      && Text.StartsWith(rest, InvoiceMiddle) && |rest| > |InvoiceMiddle| && rest[|rest| - 1] == '}'
      && rest[|InvoiceMiddle|..|rest| - 1] == bet
  {
    var rest := InvoiceMiddle + bet + "}";
    assert rest[..|InvoiceMiddle|] == InvoiceMiddle;
  }

  /* ---------------- webhook payload ---------------- */

  /** `payload.replace(',', '|').replace(';', '|').split('|')`. */
  function PayloadParts(payload: string): seq<string> {
    Text.Split(Text.Replace(Text.Replace(payload, ',', '|'), ';', '|'), '|')
  }

  /** Replacing `,` and `;` by `|` before splitting is splitting on all
      three separators. */
  lemma PayloadPartsSplitOnSeparators(payload: string)
    ensures PayloadParts(payload) == Text.SplitAny(payload, Separators)
  {
    var t := Text.Replace(Text.Replace(payload, ',', '|'), ';', '|');
    Text.SplitReplaced(payload, t, Separators, '|');
  }

  /** `key, value = part.split(':', 1)` for a part holding `:`, both
      stripped; a part without `:` is skipped. */
  function FieldOf(part: string): (r: Option<Field>)
    ensures r.Some? <==> ':' in part
  {
    match Text.SplitOnce(part, ':')
    case Some((key, value)) => Some(Field(Text.Strip(key), Text.Strip(value)))
    case None => None
  }

  /** The fields of the parts, in order. */
  function FieldsOf(parts: seq<string>): seq<Field> {
    if parts == [] then []
    else
      match FieldOf(parts[0])
      case Some(f) => [f] + FieldsOf(parts[1..])
      case None => FieldsOf(parts[1..])
  }

  /** `int(value) if value.isdigit() else value`, with the digit test
      restricted to what `int` accepts. */
  function UserValue(v: string): (r: Value)
    ensures r.Num? <==> Decimal.IsDigits(v)
    ensures r.Num? ==> r.n >= 0
    ensures r.Str? ==> r.s == v
  {
    if Decimal.IsDigits(v) then Num(Decimal.DigitsValue(v)) else Str(v)
  }

  /** A user id rendered in decimal reads back as that id. */
  lemma UserValueReadsRendering(n: nat)
    ensures UserValue(Decimal.NatToString(n)) == Num(n)
  {
  }

  /** `int(value) if value.isdigit() else 0`, likewise. */
  function BetValue(v: string): (r: Value)
    ensures r.Num? && r.n >= 0
    ensures r != Num(0) ==> Decimal.IsDigits(v)
  {
    if Decimal.IsDigits(v) then Num(Decimal.DigitsValue(v)) else Num(0)
  }

  /** The payload handling of `telegram_webhook`: defaults from the sender
      or chat; a JSON payload's `userId` and `betAmount` keys replace them
      whatever their value; a naive payload's fields are applied in order.
      A JSON decoding error keeps the defaults. */
  function ParsePayload(payload: string, decoded: Option<JsonObject>, fromId: Option<int>, chatId: int): (a: Attribution)
    ensures payload == "" || (IsJsonPayload(payload) && decoded.None?) ==> a == DefaultAttribution(fromId, chatId)
    ensures payload != "" && IsJsonPayload(payload) && decoded.Some? ==>
      && ("userId" in decoded.value ==> a.userId == decoded.value["userId"])
      && ("userId" !in decoded.value ==> a.userId == DefaultAttribution(fromId, chatId).userId)
      && ("betAmount" in decoded.value ==> a.betAmount == decoded.value["betAmount"])
      && ("betAmount" !in decoded.value ==> a.betAmount == Num(0))
    ensures payload != "" && !IsJsonPayload(payload) ==>
      a == LastAssignment(DefaultAttribution(fromId, chatId), FieldsOf(Text.SplitAny(payload, Separators)), UserValue, BetValue)
  {
    var default := DefaultAttribution(fromId, chatId);
    if payload == "" then default
    else if IsJsonPayload(payload) then
      match decoded
      case None => default
      case Some(obj) =>
        Attribution(
          if "userId" in obj then obj["userId"] else default.userId,
          if "betAmount" in obj then obj["betAmount"] else Num(0))
    else
      PayloadPartsSplitOnSeparators(payload);
      var fields := FieldsOf(PayloadParts(payload));
      AssignAllIsLastAssignment(default, fields, UserValue, BetValue);
      AssignAll(default, fields, UserValue, BetValue)
  }

  /** In a naive payload `,` and `;` are interchangeable with `|`. */
  lemma SeparatorsInterchangeable(payload: string, decoded: Option<JsonObject>, fromId: Option<int>, chatId: int)
    requires !IsJsonPayload(payload)
    ensures ParsePayload(Text.Replace(Text.Replace(payload, ',', '|'), ';', '|'), decoded, fromId, chatId)
         == ParsePayload(payload, decoded, fromId, chatId)
  {
    var t := Text.Replace(Text.Replace(payload, ',', '|'), ';', '|');
    StripUnchangedBySeparators(payload, t);
    SeparatorsReplacedOnce(payload);
    assert PayloadParts(t) == PayloadParts(payload);
    PayloadPartsSplitOnSeparators(payload);
    PayloadPartsSplitOnSeparators(t);
    assert payload == "" <==> t == "";
  }

  /** Rewriting the separators a second time changes nothing. */
  lemma SeparatorsReplacedOnce(payload: string)
    ensures var t := Text.Replace(Text.Replace(payload, ',', '|'), ';', '|');
      Text.Replace(Text.Replace(t, ',', '|'), ';', '|') == t
  {
  }

  /** Replacing non-space characters other than `{` leaves the stripped
      text's first character test unchanged. */
  lemma StripUnchangedBySeparators(s: string, t: string)
    requires |t| == |s|
    requires forall i :: 0 <= i < |s| ==> (t[i] == s[i] || (s[i] in Separators && t[i] == '|'))
    ensures IsJsonPayload(t) == IsJsonPayload(s)
  {
    SpacesAlign(s, t);
  }

  lemma {:induction false} SpacesAlign(s: string, t: string)
    requires |t| == |s|
    requires forall i :: 0 <= i < |s| ==> (t[i] == s[i] || (s[i] in Separators && t[i] == '|'))
    ensures Text.LeadingSpaces(t) == Text.LeadingSpaces(s)
    ensures Text.LeadingSpaces(s) < |s| ==> (t[Text.LeadingSpaces(s)] == '{' <==> s[Text.LeadingSpaces(s)] == '{')
    decreases |s|
  {
    if s != [] && Text.IsSpace(s[0]) {
      SpacesAlign(s[1..], t[1..]);
    }
  }

  /* ---------------- the digit test as written ---------------- */

  /** `str.isdigit()` accepts every character with a digit value, including
      the superscripts one, two and three, which `int()` then rejects. */
  predicate IsPyDigitChar(c: char) {
    Decimal.IsDigit(c) || c == '\U{B9}' || c == '\U{B2}' || c == '\U{B3}'
  }

  predicate PyIsDigit(s: string) {
    |s| > 0 && forall i :: 0 <= i < |s| ==> IsPyDigitChar(s[i])
  }

  /** A field on which `int(value)` raises: a user or bet key whose value
      passes `isdigit()` without being decimal. */
  predicate Raises(f: Field) {
    (f.key in UserKeys || f.key in BetKeys) && PyIsDigit(f.value) && !Decimal.IsDigits(f.value)
  }

  /** No field of the list makes `int(value)` raise. */
  predicate NoneRaises(fields: seq<Field>) {
    forall i :: 0 <= i < |fields| ==> !Raises(fields[i])
  }

  /** One field exactly as written; `None` when `int(value)` raises. */
  function AssignAsWritten(acc: Attribution, f: Field): (r: Option<Attribution>)
    ensures r.None? <==> Raises(f)
    ensures r.Some? ==> r.value == Assign(acc, f, UserValue, BetValue)
  {
    if f.key in UserKeys then
      if !PyIsDigit(f.value) then Some(acc.(userId := Str(f.value)))
      else if Decimal.IsDigits(f.value) then Some(acc.(userId := Num(Decimal.DigitsValue(f.value))))
      else None
    else if f.key in BetKeys then
      if !PyIsDigit(f.value) then Some(acc.(betAmount := Num(0)))
      else if Decimal.IsDigits(f.value) then Some(acc.(betAmount := Num(Decimal.DigitsValue(f.value))))
      else None
    else Some(acc)
  }

  /** The loop as written: the exception leaves the loop and is caught
      outside it, so the fields after the failing one are never read. */
  function AssignAllAsWritten(acc: Attribution, fields: seq<Field>): Attribution
    decreases |fields|
  {
    if fields == [] then acc
    else
      match AssignAsWritten(acc, fields[0])
      case Some(next) => AssignAllAsWritten(next, fields[1..])
      case None => acc
  }

  /** The number of fields the loop as written gets through: the index of
      the first field that raises, or all of them. */
  function FirstRaise(fields: seq<Field>): (k: nat)
    ensures k <= |fields|
    ensures NoneRaises(fields[..k])
    ensures k < |fields| ==> Raises(fields[k])
    decreases |fields|
  {
    if fields == [] || Raises(fields[0]) then 0
    else
      var k := 1 + FirstRaise(fields[1..]);
      assert forall i :: 1 <= i < k ==> fields[..k][i] == fields[1..][..k - 1][i - 1];
      k
  }

  /** The loop as written applies, in order, exactly the fields before the
      first one that raises. */
  lemma {:induction false} AsWrittenAppliesPrefix(acc: Attribution, fields: seq<Field>)
    ensures AssignAllAsWritten(acc, fields) == AssignAll(acc, fields[..FirstRaise(fields)], UserValue, BetValue)
    decreases |fields|
  {
    if fields != [] && !Raises(fields[0]) {
      var f, k := fields[0], FirstRaise(fields);
      AsWrittenAppliesPrefix(Assign(acc, f, UserValue, BetValue), fields[1..]);
      assert fields[..k][1..] == fields[1..][..k - 1];
    }
  }

  /** The payload handling exactly as written: the JSON branch and the
      empty payload as in the corrected reading; a naive payload applies
      its fields up to the first one that raises. */
  function ParsePayloadAsWritten(payload: string, decoded: Option<JsonObject>, fromId: Option<int>, chatId: int): (a: Attribution)
    ensures payload == "" || IsJsonPayload(payload) ==> a == ParsePayload(payload, decoded, fromId, chatId)
    ensures payload != "" && !IsJsonPayload(payload) ==>
      a == AssignAll(DefaultAttribution(fromId, chatId),
                     FieldsOf(PayloadParts(payload))[..FirstRaise(FieldsOf(PayloadParts(payload)))], UserValue, BetValue)
    ensures NoneRaises(FieldsOf(PayloadParts(payload))) ==> a == ParsePayload(payload, decoded, fromId, chatId)
  {
    if payload == "" || IsJsonPayload(payload) then ParsePayload(payload, decoded, fromId, chatId)
    else
      var fields := FieldsOf(PayloadParts(payload));
      AsWrittenAppliesPrefix(DefaultAttribution(fromId, chatId), fields);
      AsWrittenAgreesOnDecimalValues(DefaultAttribution(fromId, chatId), fields);
      AssignAllAsWritten(DefaultAttribution(fromId, chatId), fields)
  }

  /** Without a field that raises, the code as written and the corrected
      reading agree. */
  lemma {:induction false} AsWrittenAgreesOnDecimalValues(acc: Attribution, fields: seq<Field>)
    ensures NoneRaises(fields) ==> AssignAllAsWritten(acc, fields) == AssignAll(acc, fields, UserValue, BetValue)
    decreases |fields|
  {
    if fields != [] && NoneRaises(fields) {
      var f := fields[0];
      assert !Raises(f);
      assert NoneRaises(fields[1..]) by {
        forall i | 0 <= i < |fields[1..]| ensures !Raises(fields[1..][i]) {
          assert fields[1..][i] == fields[i + 1];
        }
      }
      AsWrittenAgreesOnDecimalValues(Assign(acc, f, UserValue, BetValue), fields[1..]);
    }
  }

  /** A value that `isdigit()` accepts but `int()` rejects, in a bet field,
      stops the parse as written before a later user id is read: the
      payment goes to the sender.  The corrected reading treats the bet as
      non-numeric (0) and goes on to read the user id. */
  lemma {:induction false} PyOnlyDigitsStopParse(betKey: string, bad: string, userKey: string, digits: string, fromId: int, chatId: int)
    requires betKey in BetKeys && userKey in UserKeys
    requires PyIsDigit(bad) && !Decimal.IsDigits(bad)
    requires Decimal.IsDigits(digits)
    ensures var payload := betKey + [':'] + bad + ['|'] + userKey + [':'] + digits;
      && ParsePayloadAsWritten(payload, None, Some(fromId), chatId) == Attribution(Num(fromId), Num(0))
      && ParsePayload(payload, None, Some(fromId), chatId) == Attribution(Num(Decimal.DigitsValue(digits)), Num(0))
  {
    var payload := betKey + [':'] + bad + ['|'] + userKey + [':'] + digits;
    var f1, f2 := Field(betKey, bad), Field(userKey, digits);
    assert forall i :: 0 <= i < |digits| ==> IsPyDigitChar(digits[i]);
    TwoFieldPayload(betKey, bad, userKey, digits);
    var d := DefaultAttribution(Some(fromId), chatId);
    KeyShape(betKey);
    StopsAtFirst(d, f1, f2);
    PlainPayload(payload, fromId, chatId);
    AssignTwo(d, f1, f2);
  }

  /** A field the code as written fails on ends the loop: what was read
      before it stands. */
  lemma StopsAtFirst(acc: Attribution, f1: Field, f2: Field)
    requires AssignAsWritten(acc, f1).None?
    ensures AssignAllAsWritten(acc, [f1, f2]) == acc
  {
    assert [f1, f2][0] == f1;
  }

  /** Characters `isdigit()` accepts are neither whitespace, separators
      nor colons. */
  lemma PyDigitsAreClean(v: string)
    requires forall i :: 0 <= i < |v| ==> IsPyDigitChar(v[i])
    ensures forall i :: 0 <= i < |v| ==> !Text.IsSpace(v[i]) && v[i] !in Separators && v[i] != ':'
  {
    forall i | 0 <= i < |v|
      ensures !Text.IsSpace(v[i]) && v[i] !in Separators && v[i] != ':'
    {
      assert IsPyDigitChar(v[i]);
    }
  }

  /** `k1:v1|k2:v2` with recognised keys and digit-like values is a naive
      payload of exactly those two fields. */
  lemma TwoFieldPayload(k1: string, v1: string, k2: string, v2: string)
    requires k1 in BetKeys + UserKeys && k2 in BetKeys + UserKeys
    requires PyIsDigit(v1) && PyIsDigit(v2)
    ensures var payload := k1 + [':'] + v1 + ['|'] + k2 + [':'] + v2;
      && payload != "" && !IsJsonPayload(payload)
      && FieldsOf(PayloadParts(payload)) == [Field(k1, v1), Field(k2, v2)]
  {
    var a, b := k1 + [':'] + v1, k2 + [':'] + v2;
    assert k1 + [':'] + v1 + ['|'] + k2 + [':'] + v2 == a + ['|'] + b;
    PartShape(k1, v1);
    PartShape(k2, v2);
    JoinedParts(a, b);
    TwoFields(a, b, Field(k1, v1), Field(k2, v2));
  }

  /** A part `k:v` with a recognised key and a digit-like value: read as
      that field, free of separators, starting with a letter. */
  lemma PartShape(k: string, v: string)
    requires k in BetKeys + UserKeys
    requires PyIsDigit(v)
    ensures FieldOf(k + [':'] + v) == Some(Field(k, v))
    ensures forall i :: 0 <= i < |k + [':'] + v| ==> (k + [':'] + v)[i] !in Separators
    ensures !Text.IsSpace((k + [':'] + v)[0]) && (k + [':'] + v)[0] != '{'
  {
    KeyShape(k);
    PyDigitsAreClean(v);
    NoSeparatorsInField(k, v);
    ConcreteField(k, v);
  }

  /** Two separator-free parts joined by `|`, the first starting with a
      plain character, form a naive payload of those two parts. */
  lemma JoinedParts(a: string, b: string)
    requires a != [] && !Text.IsSpace(a[0]) && a[0] != '{'
    requires forall i :: 0 <= i < |a| ==> a[i] !in Separators
    requires forall i :: 0 <= i < |b| ==> b[i] !in Separators
    ensures a + ['|'] + b != "" && !IsJsonPayload(a + ['|'] + b)
    ensures PayloadParts(a + ['|'] + b) == [a, b]
  {
    assert (a + ['|'] + b)[0] == a[0];
    NotJsonWhenPlainFirst(a + ['|'] + b);
    ConcretePartsSplit(a, b);
  }

  /** A naive payload is its fields applied in order to the defaults. */
  lemma PlainPayload(payload: string, fromId: int, chatId: int)
    requires payload != "" && !IsJsonPayload(payload)
    ensures ParsePayload(payload, None, Some(fromId), chatId)
         == AssignAll(DefaultAttribution(Some(fromId), chatId), FieldsOf(PayloadParts(payload)), UserValue, BetValue)
  {
  }

  lemma AssignTwo(acc: Attribution, f1: Field, f2: Field)
    ensures AssignAll(acc, [f1, f2], UserValue, BetValue)
         == Assign(Assign(acc, f1, UserValue, BetValue), f2, UserValue, BetValue)
  {
    assert [f1, f2][1..] == [f2] && [f2][1..] == [];
    var a1 := Assign(acc, f1, UserValue, BetValue);
    assert AssignAll(a1, [f2], UserValue, BetValue) == AssignAll(Assign(a1, f2, UserValue, BetValue), [], UserValue, BetValue);
  }

  /** The concrete case: `bet:²|uid:<digits>`. */
  lemma SuperscriptBetDropsUser(digits: string, fromId: int, chatId: int)
    requires Decimal.IsDigits(digits)
    ensures var payload := "bet:\U{B2}|uid:" + digits;
      && ParsePayloadAsWritten(payload, None, Some(fromId), chatId) == Attribution(Num(fromId), Num(0))
      && ParsePayload(payload, None, Some(fromId), chatId) == Attribution(Num(Decimal.DigitsValue(digits)), Num(0))
  {
    assert "bet:\U{B2}|uid:" + digits == "bet" + [':'] + "\U{B2}" + ['|'] + "uid" + [':'] + digits;
    assert PyIsDigit("\U{B2}") && !Decimal.IsDigits("\U{B2}") by {
      assert "\U{B2}"[0] == '\U{B2}';
    }
    PyOnlyDigitsStopParse("bet", "\U{B2}", "uid", digits, fromId, chatId);
  }

  /** Every recognised key is a non-empty run of letters. */
  lemma KeyShape(k: string)
    requires k in BetKeys || k in UserKeys
    ensures k != [] && (k in BetKeys ==> k !in UserKeys)
    ensures forall i :: 0 <= i < |k| ==> 'A' <= k[i] <= 'z' && k[i] != '{'
    ensures forall i :: 0 <= i < |k| ==> !Text.IsSpace(k[i]) && k[i] !in Separators && k[i] != ':'
  {
  }

  /** A payload whose first character is neither whitespace nor `{` is not
      read as JSON. */
  lemma NotJsonWhenPlainFirst(payload: string)
    requires payload != [] && !Text.IsSpace(payload[0]) && payload[0] != '{'
    ensures !IsJsonPayload(payload)
  {
    assert Text.LeadingSpaces(payload) == 0;
  }

  /** `key:value` has no separator when neither side has one. */
  lemma NoSeparatorsInField(key: string, value: string)
    requires forall i :: 0 <= i < |key| ==> key[i] !in Separators
    requires forall i :: 0 <= i < |value| ==> value[i] !in Separators
    ensures forall i :: 0 <= i < |key + [':'] + value| ==> (key + [':'] + value)[i] !in Separators
  {
  }

  lemma TwoFields(a: string, b: string, fa: Field, fb: Field)
    requires FieldOf(a) == Some(fa) && FieldOf(b) == Some(fb)
    ensures FieldsOf([a, b]) == [fa, fb]
  {
    assert [a, b][1..] == [b] && [b][1..] == [];
    assert FieldsOf([b]) == [fb] + FieldsOf([]);
  }

  /** Two separator-free parts joined by `|` split back into those parts. */
  lemma ConcretePartsSplit(a: string, b: string)
    requires forall i :: 0 <= i < |a| ==> a[i] !in Separators
    requires forall i :: 0 <= i < |b| ==> b[i] !in Separators
    ensures PayloadParts(a + ['|'] + b) == [a, b]
  {
    var p := a + ['|'] + b;
    var t := Text.Replace(Text.Replace(p, ',', '|'), ';', '|');
    assert t == p;
    Text.SplitAppend(a, b, '|');
    Text.SplitAtFirst(a, '|');
    Text.SplitAtFirst(b, '|');
  }

  /** A part `key:value` with no colon in the key and no whitespace around
      key or value is read as that field. */
  lemma ConcreteField(key: string, value: string)
    requires ':' !in key
    requires key != [] && !Text.IsSpace(key[0]) && !Text.IsSpace(key[|key| - 1])
    requires value != [] && !Text.IsSpace(value[0]) && !Text.IsSpace(value[|value| - 1])
    ensures FieldOf(key + [':'] + value) == Some(Field(key, value))
  {
    Text.SplitOnceUnique(key, value, ':');
  }

  /* ---------------- webhook ---------------- */

  /** `os.getenv("TELEGRAM_WEBHOOK_SECRET", os.getenv("WEBHOOK_SECRET", ""))`:
      the first variable wins whenever it is set, even to the empty string. */
  function WebhookSecret(telegramSecret: Option<string>, genericSecret: Option<string>): (s: string)
    ensures telegramSecret.Some? ==> s == telegramSecret.value
    ensures telegramSecret.None? ==> s == genericSecret.GetOr("")
  {
    match telegramSecret
    case Some(t) => t
    case None => genericSecret.GetOr("")
  }

  /** The payment attribution the handler computes from a message, with
      the payload loop as written. */
  function Attribute(p: Payment, msg: Message): Attribution {
    ParsePayloadAsWritten(p.invoicePayload, p.decoded, msg.fromId, msg.chatId)
  }

  /** `telegram_webhook`: 401 on a configured secret the header does not
      carry; otherwise the pre-checkout query is answered and a paid
      message starts a spin for the parsed attribution. */
  function HandleWebhook(telegramSecret: Option<string>, genericSecret: Option<string>,
                         header: Option<string>, update: Update): (r: Reply)
    ensures r == Unauthorized <==>
      WebhookSecret(telegramSecret, genericSecret) != "" && header != Some(WebhookSecret(telegramSecret, genericSecret))
    ensures r == Unauthorized ==> telegramSecret.Some? || genericSecret.Some?
    ensures r.Acknowledged? && r.spin.Some? ==>
      update.message.Some? && update.message.value.payment.Some?
      && r.spin.value.attribution == Attribute(update.message.value.payment.value, update.message.value)
  {
    Handle(WebhookSecret(telegramSecret, genericSecret), header, update, Attribute)
  }
}
