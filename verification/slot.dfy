/** The spin-resolution logic common to both servers: the dice mapping
    (value -> three reel symbols) with its fallback table, the lookup with a
    placeholder for unmapped values, win/jackpot classification, the status
    line and the result announcement text.  The two servers differ only in
    how they normalise symbol names while loading; that choice is passed in
    as `normalize`. */
module Slot {
  import Text
  import Decimal

  /** The three reel symbols a dice value shows, in reel order. */
  datatype Triple = Triple(first: string, second: string, third: string) {
    /** The symbol list the servers pass around and return. */
    function Symbols(): seq<string> {
      [first, second, third]
    }
  }

  type Mapping = map<int, Triple>

  /** One record `{value, first, second, third}` of the mapping file. */
  datatype Entry = Entry(value: int, first: string, second: string, third: string)

  /** The outcome of reading and decoding the mapping file. */
  datatype MappingFile =
    | Missing                       // the file does not exist
    | Unreadable                    // reading or decoding raised
    | Entries(entries: seq<Entry>)  // the decoded list of records

  /** The number of faces of Telegram's slot-machine dice. */
  const MappingSize: nat := 64

  /** The dice value announced as a jackpot. */
  const JackpotValue: int := 64

  /** The table used whenever the mapping file cannot be used. */
  function Fallback(): Mapping {
    map[
      1 := Triple("bar", "bar", "bar"),
      22 := Triple("grape", "grape", "grape"),
      43 := Triple("lemon", "lemon", "lemon"),
      64 := Triple("777", "777", "777")
    ]
  }

  /** The symbols shown for a dice value the mapping does not know. */
  const Placeholder: Triple := Triple("bar", "lemon", "grape")

  /* ---------------- loading ---------------- */

  /** The dice values mentioned by `entries`. */
  function ValuesOf(entries: seq<Entry>): set<int> {
    set i | 0 <= i < |entries| :: entries[i].value
  }

  function Normalized(e: Entry, normalize: string -> string): Triple {
    Triple(normalize(e.first), normalize(e.second), normalize(e.third))
  }

  /** Entries are stored in file order, so a later record for the same
      value replaces an earlier one. */
  function Build(entries: seq<Entry>, normalize: string -> string): (m: Mapping)
    ensures m.Keys == ValuesOf(entries)
  {
    if entries == [] then map[]
    else
      var last := entries[|entries| - 1];
      var prefix := entries[..|entries| - 1];
      assert ValuesOf(entries) == ValuesOf(prefix) + {last.value} by {
        assert forall i :: 0 <= i < |prefix| ==> prefix[i] == entries[i];
      }
      Build(prefix, normalize)[last.value := Normalized(last, normalize)]
  }

  /** Loading: a decoded file whose records name exactly 64 distinct values
      becomes the mapping; a missing or undecodable file, or any other
      number of distinct values, yields the fallback table. */
  function Load(file: MappingFile, normalize: string -> string): (m: Mapping)
    ensures |m| == MappingSize || m == Fallback()
    ensures |m| == MappingSize <==> file.Entries? && |ValuesOf(file.entries)| == MappingSize
  {
    match file
    case Entries(entries) =>
      var built := Build(entries, normalize);
      if |built| == MappingSize then built else Fallback()
    case _ => Fallback()
  }

  /** Every triple of a built mapping is some record of the file,
      normalised. */
  lemma {:induction false} BuildOrigin(entries: seq<Entry>, normalize: string -> string, v: int)
    requires v in Build(entries, normalize)
    ensures exists i :: (0 <= i < |entries| && entries[i].value == v
                         && Build(entries, normalize)[v] == Normalized(entries[i], normalize))
    decreases |entries|
  {
    var n := |entries|;
    if entries[n - 1].value != v {
      var prefix := entries[..n - 1];
      BuildOrigin(prefix, normalize, v);
      var i :| 0 <= i < |prefix| && prefix[i].value == v && Build(prefix, normalize)[v] == Normalized(prefix[i], normalize);
      assert entries[i] == prefix[i];
    }
  }

  /** Two normalisations that agree on every symbol of the file build the
      same mapping. */
  lemma {:induction false} BuildAgrees(entries: seq<Entry>, n1: string -> string, n2: string -> string)
    requires forall i :: 0 <= i < |entries| ==> Normalized(entries[i], n1) == Normalized(entries[i], n2)
    ensures Build(entries, n1) == Build(entries, n2)
    decreases |entries|
  {
    if entries != [] {
      BuildAgrees(entries[..|entries| - 1], n1, n2);
    }
  }

  /** The same holds of loading. */
  lemma LoadAgrees(file: MappingFile, n1: string -> string, n2: string -> string)
    requires file.Entries? ==>
      forall i :: 0 <= i < |file.entries| ==> Normalized(file.entries[i], n1) == Normalized(file.entries[i], n2)
    ensures Load(file, n1) == Load(file, n2)
  {
    if file.Entries? {
      BuildAgrees(file.entries, n1, n2);
    }
  }

  /** `i` is the position of the last record for value `v`. */
  predicate IsLastIndexOf(entries: seq<Entry>, v: int, i: int) {
    && 0 <= i < |entries|
    && entries[i].value == v
    && forall j :: i < j < |entries| ==> entries[j].value != v
  }

  /** The triple stored for a value is the normalised last record for it. */
  lemma {:induction false} BuildLastWins(entries: seq<Entry>, normalize: string -> string, v: int, i: int)
    requires IsLastIndexOf(entries, v, i)
    ensures v in Build(entries, normalize)
    ensures Build(entries, normalize)[v] == Normalized(entries[i], normalize)
    decreases |entries|
  {
    var n := |entries|;
    if i < n - 1 {
      LastInPrefix(entries, v, i);
      BuildLastWins(entries[..n - 1], normalize, v, i);
      BuildSkipsLast(entries, normalize, v);
    } else {
      BuildStoresLast(entries, normalize);
    }
  }

  /** The final record is stored under its value. */
  lemma BuildStoresLast(entries: seq<Entry>, normalize: string -> string)
    requires entries != []
    ensures entries[|entries| - 1].value in Build(entries, normalize)
    ensures Build(entries, normalize)[entries[|entries| - 1].value] == Normalized(entries[|entries| - 1], normalize)
  {
  }

  /** A final record for another value leaves `v` as the prefix stored it. */
  lemma BuildSkipsLast(entries: seq<Entry>, normalize: string -> string, v: int)
    requires entries != [] && entries[|entries| - 1].value != v
    requires v in Build(entries[..|entries| - 1], normalize)
    ensures v in Build(entries, normalize)
    ensures Build(entries, normalize)[v] == Build(entries[..|entries| - 1], normalize)[v]
  {
  }

  /** A last record before the end is still last in the prefix, and the
      final record is for another value. */
  lemma LastInPrefix(entries: seq<Entry>, v: int, i: int)
    requires IsLastIndexOf(entries, v, i) && i < |entries| - 1
    ensures IsLastIndexOf(entries[..|entries| - 1], v, i)
    ensures entries[|entries| - 1].value != v
  {
    var prefix := entries[..|entries| - 1];
    assert forall j :: 0 <= j < |prefix| ==> prefix[j] == entries[j];
  }

  /** No more distinct values than records. */
  lemma {:induction false} ValuesOfBound(entries: seq<Entry>)
    ensures |ValuesOf(entries)| <= |entries|
    decreases |entries|
  {
    if entries != [] {
      var prefix := entries[..|entries| - 1];
      assert ValuesOf(entries) == ValuesOf(prefix) + {entries[|entries| - 1].value} by {
        assert forall i :: 0 <= i < |prefix| ==> prefix[i] == entries[i];
      }
      ValuesOfBound(prefix);
    }
  }

  /** Two records for one value leave fewer distinct values than records. */
  lemma DuplicateShrinks(entries: seq<Entry>, i: int, j: int)
    requires 0 <= i < j < |entries|
    requires entries[i].value == entries[j].value
    ensures |ValuesOf(entries)| < |entries|
  {
    var rest := entries[..j] + entries[j + 1..];
    assert ValuesOf(entries) == ValuesOf(rest) by {
      forall x | x in ValuesOf(entries)
        ensures x in ValuesOf(rest)
      {
        var k :| 0 <= k < |entries| && entries[k].value == x;
        if k < j {
          assert rest[k] == entries[k];
        } else if k == j {
          assert rest[i] == entries[i];
        } else {
          assert rest[k - 1] == entries[k];
        }
      }
      forall x | x in ValuesOf(rest)
        ensures x in ValuesOf(entries)
      {
        var k :| 0 <= k < |rest| && rest[k].value == x;
        if k < j {
          assert rest[k] == entries[k];
        } else {
          assert rest[k] == entries[k + 1];
        }
      }
    }
    ValuesOfBound(rest);
  }

  /** Records with pairwise distinct values name as many values as there
      are records. */
  lemma {:induction false} DistinctValuesCount(entries: seq<Entry>)
    requires forall i, j :: 0 <= i < j < |entries| ==> entries[i].value != entries[j].value
    ensures |ValuesOf(entries)| == |entries|
    decreases |entries|
  {
    if entries != [] {
      var n := |entries|;
      var prefix := entries[..n - 1];
      assert ValuesOf(entries) == ValuesOf(prefix) + {entries[n - 1].value} by {
        assert forall i :: 0 <= i < |prefix| ==> prefix[i] == entries[i];
      }
      assert entries[n - 1].value !in ValuesOf(prefix);
      DistinctValuesCount(prefix);
    }
  }

  /** A file of 64 records in which some value repeats cannot load: the
      later record overwrites the earlier one, the key count drops below 64
      and the fallback table is used. */
  lemma DuplicateForcesFallback(entries: seq<Entry>, normalize: string -> string, i: int, j: int)
    requires |entries| == MappingSize
    requires 0 <= i < j < |entries| && entries[i].value == entries[j].value
    ensures Load(Entries(entries), normalize) == Fallback()
  {
    DuplicateShrinks(entries, i, j);
  }

  /** A file of 64 records with 64 distinct values loads as written. */
  lemma DistinctFileLoads(entries: seq<Entry>, normalize: string -> string)
    requires |entries| == MappingSize
    requires forall i, j :: 0 <= i < j < |entries| ==> entries[i].value != entries[j].value
    ensures Load(Entries(entries), normalize) == Build(entries, normalize)
    ensures Load(Entries(entries), normalize).Keys == ValuesOf(entries)
  {
    DistinctValuesCount(entries);
  }

  /* ---------------- lookup ---------------- */

  /** The triple for a dice value, or the placeholder when it is unmapped;
      never fails. */
  function Lookup(m: Mapping, value: int): Triple {
    if value in m then m[value] else Placeholder
  }

  /** The three reels shown for a dice value: the table's triple, or the
      placeholder bar/lemon/grape for a value the table lacks. Both
      backends define this the same way. */
  function DiceValueToSymbols(m: Mapping, value: int): (r: seq<string>)
    ensures |r| == 3
    ensures value !in m ==> r == ["bar", "lemon", "grape"]
    ensures value in m ==> r == m[value].Symbols()
  {
    Lookup(m, value).Symbols()
  }

  /** Looking a value up after loading a file: the normalised last record
      for it when the file loaded, the fallback table's triple or the
      placeholder otherwise. */
  lemma LookupAfterLoad(file: MappingFile, normalize: string -> string, v: int)
    ensures var m := Load(file, normalize);
      && (|m| == MappingSize ==>
            && (v in ValuesOf(file.entries) <==> v in m)
            && (forall i :: IsLastIndexOf(file.entries, v, i) ==> Lookup(m, v) == Normalized(file.entries[i], normalize))
            && (v !in ValuesOf(file.entries) ==> Lookup(m, v) == Placeholder))
      && (|m| != MappingSize ==>
            Lookup(m, v) == if v in {1, 22, 43, 64} then Fallback()[v] else Placeholder)
  {
    var m := Load(file, normalize);
    if |m| == MappingSize {
      forall i | IsLastIndexOf(file.entries, v, i)
        ensures Lookup(m, v) == Normalized(file.entries[i], normalize)
      {
        BuildLastWins(file.entries, normalize, v, i);
      }
    }
  }

  /* ---------------- classification ---------------- */

  /** `len(set(symbols)) == 1` / `new Set(symbols).size === 1`. */
  predicate IsWin(symbols: seq<string>) {
    |set s | s in symbols| == 1
  }

  /** A spin is a win exactly when the three reels agree. */
  lemma IsWinIffAllEqual(t: Triple)
    ensures IsWin(t.Symbols()) <==> t.first == t.second == t.third
  {
    var a, b, c := t.first, t.second, t.third;
    var s := set x | x in t.Symbols();
    assert s == {a, b, c} by {
      assert forall x :: x in t.Symbols() <==> x == a || x == b || x == c;
    }
    if a == b == c {
      assert s == {a};
    } else {
      var p, q := if a != b then a else a, if a != b then b else c;
      assert p != q && {p, q} <= s;
      assert |{p, q}| == 2;
      assert |s| >= |{p, q}| by { SubsetCard({p, q}, s); }
    }
  }

  lemma SubsetCard(small: set<string>, big: set<string>)
    requires small <= big
    ensures |small| <= |big|
  {
    assert big == small + (big - small);
  }

  /** The jackpot depends on the dice value alone. */
  predicate IsJackpot(value: int) {
    value == JackpotValue
  }

  datatype Status = Jackpot | Win | Lose

  /** The status announced for a spin: jackpot first, then win, then lose. */
  function StatusOf(isJackpot: bool, isWin: bool): Status {
    if isJackpot then Jackpot else if isWin then Win else Lose
  }

  function StatusLine(st: Status): string {
    match st
    case Jackpot => "\U{1F3B0}\U{1F4B0} JACKPOT! \U{1F4B0}\U{1F3B0}"
    case Win => "\U{2705} WIN"
    case Lose => "\U{274C} Lose"
  }

  /* ---------------- announcement text ---------------- */

  /** The reel symbols that have a picture. */
  const EmojiKeys: set<string> := {"777", "lemon", "grape", "bar"}

  /** The picture for a reel symbol; a symbol without one is shown as is. */
  function Emoji(symbol: string): (r: string)
    ensures symbol !in EmojiKeys ==> r == symbol
    ensures symbol in EmojiKeys ==> r != symbol && r !in EmojiKeys
  {
    match symbol
    case "777" => "7\U{FE0F}\U{20E3}"
    case "lemon" => "\U{1F34B}"
    case "grape" => "\U{1F347}"
    case "bar" => "\U{1F3B0}"
    case _ => symbol
  }

  function EmojiAll(symbols: seq<string>): (r: seq<string>)
    ensures |r| == |symbols|
    ensures forall i :: 0 <= i < |symbols| ==> r[i] == Emoji(symbols[i])
  {
    if symbols == [] then [] else [Emoji(symbols[0])] + EmojiAll(symbols[1..])
  }

  /** The reels as pictures separated by single spaces. */
  function Pretty(symbols: seq<string>): string {
    Text.Join(EmojiAll(symbols), ' ')
  }

  /** The pictures can be read back from the rendered reels when no symbol
      contains a space. */
  lemma PrettyRecoverable(symbols: seq<string>)
    requires |symbols| >= 1
    requires forall i :: 0 <= i < |symbols| ==> ' ' !in symbols[i]
    ensures Text.Split(Pretty(symbols), ' ') == EmojiAll(symbols)
  {
    EmojiAllAvoids(symbols, ' ');
    Text.SplitJoin(EmojiAll(symbols), ' ');
  }

  /** Neither a space nor a line break occurs in a picture. */
  lemma EmojiAvoids(symbol: string, c: char)
    requires c == ' ' || c == '\n'
    requires c !in symbol
    ensures c !in Emoji(symbol)
  {
    if symbol == "777" {
      assert Emoji(symbol) == "7\U{FE0F}\U{20E3}";
    } else if symbol == "lemon" {
      assert Emoji(symbol) == "\U{1F34B}";
    } else if symbol == "grape" {
      assert Emoji(symbol) == "\U{1F347}";
    } else if symbol == "bar" {
      assert Emoji(symbol) == "\U{1F3B0}";
    }
  }

  lemma EmojiAllAvoids(symbols: seq<string>, c: char)
    requires c == ' ' || c == '\n'
    requires forall i :: 0 <= i < |symbols| ==> c !in symbols[i]
    ensures forall i :: 0 <= i < |symbols| ==> c !in EmojiAll(symbols)[i]
  {
    forall i | 0 <= i < |symbols|
      ensures c !in EmojiAll(symbols)[i]
    {
      EmojiAvoids(symbols[i], c);
    }
  }

  /** The separator line of the announcement: 14 box-drawing characters. */
  const Rule: string := "\U{2501}\U{2501}\U{2501}\U{2501}\U{2501}\U{2501}\U{2501}\U{2501}\U{2501}\U{2501}\U{2501}\U{2501}\U{2501}\U{2501}"

  function UserLine(user: string): string { "\U{1F464} User: " + user }
  function BetLine(bet: string): string { "\U{1F4B0} Bet: " + bet }
  function ValueLine(value: int): string { "\U{1F3B2} Value: " + Decimal.IntToString(value) + "/64" }
  function ResultLine(pretty: string): string { "\U{1F3AF} Result: " + pretty }

  /** The nine lines of the announcement, in order. */
  function TextLines(user: string, bet: string, value: int, symbols: seq<string>, st: Status): seq<string> {
    [Rule, UserLine(user), BetLine(bet), Rule, ValueLine(value), ResultLine(Pretty(symbols)), Rule, StatusLine(st), Rule]
  }

  /** The announcement posted as a reply to the dice message: its nine
      lines separated by line breaks, with no trailing break.  `user` and
      `bet` are the servers' renderings of the user id and bet values. */
  function ComposeText(user: string, bet: string, value: int, symbols: seq<string>, st: Status): string {
    Text.Join(TextLines(user, bet, value, symbols, st), '\n')
  }

  /** Splitting the announcement at line breaks gives back its nine lines,
      so a reader can recover the user, bet, value, reels and status, as
      long as the user and bet renderings and the symbols hold no line
      break. */
  lemma ComposeTextLines(user: string, bet: string, value: int, symbols: seq<string>, st: Status)
    requires '\n' !in user && '\n' !in bet
    requires forall i :: 0 <= i < |symbols| ==> '\n' !in symbols[i]
    ensures Text.Split(ComposeText(user, bet, value, symbols, st), '\n') == TextLines(user, bet, value, symbols, st)
  {
    var lines := TextLines(user, bet, value, symbols, st);
    LinesHaveNoBreak(user, bet, value, symbols, st);
    Text.SplitJoin(lines, '\n');
  }

  /** No line of the announcement holds a line break. */
  lemma LinesHaveNoBreak(user: string, bet: string, value: int, symbols: seq<string>, st: Status)
    requires '\n' !in user && '\n' !in bet
    requires forall i :: 0 <= i < |symbols| ==> '\n' !in symbols[i]
    ensures forall i :: 0 <= i < 9 ==> '\n' !in TextLines(user, bet, value, symbols, st)[i]
  {
    NoBreakInRule();
    NoBreakInStatus(st);
    NoBreakInFields(user, bet);
    NoBreakInValueLine(value);
    NoBreakInResultLine(symbols);
  }

  lemma NoBreakInFields(user: string, bet: string)
    requires '\n' !in user && '\n' !in bet
    ensures '\n' !in UserLine(user) && '\n' !in BetLine(bet)
  {
    NoBreakInConcat("\U{1F464} User: ", user);
    NoBreakInConcat("\U{1F4B0} Bet: ", bet);
  }

  lemma NoBreakInValueLine(value: int)
    ensures '\n' !in ValueLine(value)
  {
    NoBreakInNumber(value);
    NoBreakInConcat("\U{1F3B2} Value: ", Decimal.IntToString(value));
    NoBreakInConcat("\U{1F3B2} Value: " + Decimal.IntToString(value), "/64");
  }

  lemma NoBreakInResultLine(symbols: seq<string>)
    requires forall i :: 0 <= i < |symbols| ==> '\n' !in symbols[i]
    ensures '\n' !in ResultLine(Pretty(symbols))
  {
    NoBreakInPretty(symbols);
    NoBreakInConcat("\U{1F3AF} Result: ", Pretty(symbols));
  }

  lemma NoBreakInConcat(a: string, b: string)
    requires '\n' !in b
    requires forall i :: 0 <= i < |a| ==> a[i] != '\n'
    ensures '\n' !in a + b
  {
  }

  lemma NoBreakInRule()
    ensures '\n' !in Rule
  {
  }

  lemma NoBreakInStatus(st: Status)
    ensures '\n' !in StatusLine(st)
  {
  }

  lemma NoBreakInPretty(symbols: seq<string>)
    requires forall i :: 0 <= i < |symbols| ==> '\n' !in symbols[i]
    ensures '\n' !in Pretty(symbols)
  {
    EmojiAllAvoids(symbols, '\n');
    NoBreakInJoin(EmojiAll(symbols));
  }

  lemma {:induction false} NoBreakInJoin(parts: seq<string>)
    requires forall i :: 0 <= i < |parts| ==> '\n' !in parts[i]
    ensures '\n' !in Text.Join(parts, ' ')
  {
    if |parts| > 1 {
      NoBreakInJoin(parts[1..]);
    }
  }

  lemma NoBreakInNumber(value: int)
    ensures '\n' !in Decimal.IntToString(value)
  {
    var s := Decimal.IntToString(value);
    if value >= 0 {
      assert forall i :: 0 <= i < |s| ==> Decimal.IsDigit(s[i]);
    } else {
      var t := s[1..];
      assert s == [s[0]] + t;
      assert forall i :: 0 <= i < |t| ==> Decimal.IsDigit(t[i]);
    }
  }

  /* ---------------- a complete spin ---------------- */

  /** What a spin reports: the reels, the dice value, the two flags, the
      announcement and the id of the dice message it replies to. */
  datatype SpinResult = SpinResult(
    symbols: seq<string>,
    diceValue: int,
    isWin: bool,
    isJackpot: bool,
    text: string,
    diceMessageId: int)
  {
    function Status(): Status {
      StatusOf(isJackpot, isWin)
    }
  }

  /** Resolves a spin once the dice value and dice message id are known:
      map the value, classify, compose the announcement. */
  function Resolve(m: Mapping, diceValue: int, diceMessageId: int, user: string, bet: string): (r: SpinResult)
    ensures r.symbols == Lookup(m, diceValue).Symbols()
    ensures r.diceValue == diceValue && r.diceMessageId == diceMessageId
    ensures r.isJackpot <==> diceValue == JackpotValue
    ensures r.isWin <==> Lookup(m, diceValue).first == Lookup(m, diceValue).second == Lookup(m, diceValue).third
    ensures r.Status() == Jackpot <==> diceValue == JackpotValue
    ensures r.Status() == Win <==> diceValue != JackpotValue && r.symbols[0] == r.symbols[1] == r.symbols[2]
    ensures r.text == ComposeText(user, bet, diceValue, r.symbols, r.Status())
  {
    var t := Lookup(m, diceValue);
    var symbols := t.Symbols();
    var isWin := IsWin(symbols);
    var isJackpot := IsJackpot(diceValue);
    IsWinIffAllEqual(t);
    SpinResult(symbols, diceValue, isWin, isJackpot, ComposeText(user, bet, diceValue, symbols, StatusOf(isJackpot, isWin)), diceMessageId)
  }

  /** The jackpot line wins over a non-matching triple: a mapping that sends
      64 to three different symbols still announces a jackpot. */
  lemma JackpotWithoutMatchingReels(user: string, bet: string, id: int)
    ensures var r := Resolve(map[64 := Triple("bar", "lemon", "grape")], 64, id, user, bet);
      !r.isWin && r.isJackpot && r.Status() == Jackpot
  {
  }

  /** The announcement's status line is the one the flags select. */
  lemma ResolveStatusLine(m: Mapping, diceValue: int, id: int, user: string, bet: string)
    requires '\n' !in user && '\n' !in bet
    requires forall v :: v in m ==> '\n' !in m[v].first && '\n' !in m[v].second && '\n' !in m[v].third
    ensures var r := Resolve(m, diceValue, id, user, bet);
      var lines := Text.Split(r.text, '\n');
      |lines| == 9 && lines[7] == StatusLine(r.Status()) && lines[4] == ValueLine(diceValue)
  {
    var r := Resolve(m, diceValue, id, user, bet);
    LookupHasNoBreak(m, diceValue);
    ComposeTextLines(user, bet, diceValue, r.symbols, r.Status());
  }

  lemma LookupHasNoBreak(m: Mapping, v: int)
    requires forall w :: w in m ==> '\n' !in m[w].first && '\n' !in m[w].second && '\n' !in m[w].third
    ensures forall i :: 0 <= i < |Lookup(m, v).Symbols()| ==> '\n' !in Lookup(m, v).Symbols()[i]
  {
    var t := Lookup(m, v);
    assert '\n' !in t.first && '\n' !in t.second && '\n' !in t.third;
    assert t.Symbols() == [t.first, t.second, t.third];
  }
}
