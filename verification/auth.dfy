/** The Telegram Mini App authentication helpers of the FastAPI server
    (server/main.py): `parse_qs` on the init data, the data-check string
    the signature covers, the signature check around it, and the `tma `
    prefix of the Authorization header.  The HMAC-SHA256 signature and
    percent-decoding are parameters. */
module TelegramAuth {
  import opened Wrappers
  import Text
  import Lex

  /* ---------------- parse_qs ---------------- */

  /** One decoded `name=value` field of a query string. */
  datatype Pair = Pair(name: string, value: string)

  /** `unquote(s.replace('+', ' '))`, percent-decoding left to `unquote`. */
  function Decode(s: string, unquote: string -> string): string {
    unquote(Text.Replace(s, '+', ' '))
  }

  /** One `&`-separated field as `parse_qsl` reads it without
      `keep_blank_values`: an empty field, one without `=`, and one whose
      value is empty are dropped; the name may be empty. */
  function ParseField(field: string, unquote: string -> string): (r: Option<Pair>)
    ensures '=' !in field ==> r.None?
  {
    match Text.SplitOnce(field, '=')
    case Some((name, value)) => if value == "" then None else Some(Pair(Decode(name, unquote), Decode(value, unquote)))
    case None => None
  }

  /** A field `name=value` with no `=` in the name: its decoded pair unless
      the value is empty; `=` inside the value belongs to the value. */
  lemma ParseFieldOf(name: string, value: string, unquote: string -> string)
    requires '=' !in name
    ensures ParseField(name + ['='] + value, unquote)
         == if value == "" then None else Some(Pair(Decode(name, unquote), Decode(value, unquote)))
  {
    Text.SplitOnceUnique(name, value, '=');
  }

  /** The pairs of the fields, in order. */
  function Pairs(fields: seq<string>, unquote: string -> string): (ps: seq<Pair>)
    ensures |ps| <= |fields|
  {
    if fields == [] then []
    else
      match ParseField(fields[0], unquote)
      case Some(p) => [p] + Pairs(fields[1..], unquote)
      case None => Pairs(fields[1..], unquote)
  }

  /** `parse_qsl(qs)`: the fields separated by `&`. */
  function ParseQsl(qs: string, unquote: string -> string): seq<Pair> {
    Pairs(Text.Split(qs, '&'), unquote)
  }

  /** The encoding a client sends: `name=value` fields joined by `&`. */
  function FieldText(p: Pair): string {
    p.name + ['='] + p.value
  }

  function FieldTexts(ps: seq<Pair>): (ts: seq<string>)
    ensures |ts| == |ps|
    ensures forall i :: 0 <= i < |ps| ==> ts[i] == FieldText(ps[i])
  {
    if ps == [] then [] else [FieldText(ps[0])] + FieldTexts(ps[1..])
  }

  /** Characters that `parse_qsl` treats specially in a field. */
  predicate PlainText(s: string) {
    '&' !in s && '=' !in s && '+' !in s
  }

  /** Parsing a query string written from plain, non-empty-valued pairs
      gives the pairs back, when decoding leaves their texts alone. */
  lemma {:induction false} ParseQslRoundTrip(ps: seq<Pair>, unquote: string -> string)
    requires ps != []
    requires forall i :: 0 <= i < |ps| ==> PlainText(ps[i].name) && PlainText(ps[i].value) && ps[i].value != ""
    requires forall i :: 0 <= i < |ps| ==> unquote(ps[i].name) == ps[i].name && unquote(ps[i].value) == ps[i].value
    ensures ParseQsl(Text.Join(FieldTexts(ps), '&'), unquote) == ps
  {
    var ts := FieldTexts(ps);
    forall i | 0 <= i < |ts|
      ensures '&' !in ts[i]
    {
      assert ts[i] == ps[i].name + ['='] + ps[i].value;
    }
    Text.SplitJoin(ts, '&');
    PairsOfFieldTexts(ps, unquote);
  }

  lemma {:induction false} PairsOfFieldTexts(ps: seq<Pair>, unquote: string -> string)
    requires forall i :: 0 <= i < |ps| ==> PlainText(ps[i].name) && PlainText(ps[i].value) && ps[i].value != ""
    requires forall i :: 0 <= i < |ps| ==> unquote(ps[i].name) == ps[i].name && unquote(ps[i].value) == ps[i].value
    ensures Pairs(FieldTexts(ps), unquote) == ps
  {
    if ps != [] {
      var p := ps[0];
      ParseFieldOf(p.name, p.value, unquote);
      ReplaceAbsent(p.name, '+', ' ');
      ReplaceAbsent(p.value, '+', ' ');
      assert FieldTexts(ps)[1..] == FieldTexts(ps[1..]);
      PairsOfFieldTexts(ps[1..], unquote);
    }
  }

  /** Replacing a character that does not occur changes nothing. */
  lemma ReplaceAbsent(s: string, a: char, b: char)
    requires a !in s
    ensures Text.Replace(s, a, b) == s
  {
  }

  /* ---------------- grouping by name ---------------- */

  /** A name and its values, in the order `parse_qs` collects them. */
  datatype QsField = QsField(name: string, values: seq<string>)

  /** Position of the field called `name`, the first one if several. */
  function IndexOf(g: seq<QsField>, name: string): (r: Option<nat>)
    ensures r.Some? ==> r.value < |g| && g[r.value].name == name
    ensures r.Some? ==> forall j :: 0 <= j < r.value ==> g[j].name != name
    ensures r.None? ==> forall j :: 0 <= j < |g| ==> g[j].name != name
  {
    if g == [] then None
    else if g[0].name == name then Some(0)
    else match IndexOf(g[1..], name)
      case Some(i) => Some(i + 1)
      case None => None
  }

  /** One pair added to the grouped fields: appended to the values of its
      name, or a new field at the end. */
  function AddPair(g: seq<QsField>, p: Pair): (r: seq<QsField>)
    ensures |r| == if IndexOf(g, p.name).Some? then |g| else |g| + 1
    ensures forall j :: 0 <= j < |g| ==> r[j].name == g[j].name
    ensures forall j :: 0 <= j < |g| && g[j].name != p.name ==> r[j] == g[j]
    ensures IndexOf(g, p.name).None? ==> r[|g|] == QsField(p.name, [p.value])
    ensures IndexOf(g, p.name).Some? ==>
      r[IndexOf(g, p.name).value].values == g[IndexOf(g, p.name).value].values + [p.value]
  {
    match IndexOf(g, p.name)
    case Some(i) => g[i := g[i].(values := g[i].values + [p.value])]
    case None => g + [QsField(p.name, [p.value])]
  }

  /** `parse_qs`: the pairs grouped by name. */
  function Group(pairs: seq<Pair>): seq<QsField>
    decreases |pairs|
  {
    if pairs == [] then []
    else AddPair(Group(pairs[..|pairs| - 1]), pairs[|pairs| - 1])
  }

  /** Reference reading: the values given for `name`, in order. */
  function ValuesFor(pairs: seq<Pair>, name: string): (vs: seq<string>)
    ensures vs != [] <==> exists k :: 0 <= k < |pairs| && pairs[k].name == name
    decreases |pairs|
  {
    if pairs == [] then []
    else
      var last := pairs[|pairs| - 1];
      var prefix := pairs[..|pairs| - 1];
      assert forall k :: 0 <= k < |prefix| ==> prefix[k] == pairs[k];
      ValuesFor(prefix, name) + if last.name == name then [last.value] else []
  }

  predicate DistinctNames(g: seq<QsField>) {
    forall i, j :: 0 <= i < j < |g| ==> g[i].name != g[j].name
  }

  /** Every field has at least one value. */
  predicate WellFormed(g: seq<QsField>) {
    forall i :: 0 <= i < |g| ==> g[i].values != []
  }

  /** The grouping has one field per name that occurs, each holding that
      name's values in the order given. */
  lemma GroupSpec(pairs: seq<Pair>)
    ensures var g := Group(pairs);
      && DistinctNames(g)
      && (forall i :: 0 <= i < |g| ==> g[i].values == ValuesFor(pairs, g[i].name))
      && (forall k :: 0 <= k < |pairs| ==> IndexOf(g, pairs[k].name).Some?)
  {
    GroupDistinct(pairs);
    GroupValues(pairs);
    GroupNames(pairs);
  }

  lemma {:induction false} GroupDistinct(pairs: seq<Pair>)
    ensures DistinctNames(Group(pairs))
    decreases |pairs|
  {
    if pairs != [] {
      var prefix, p := pairs[..|pairs| - 1], pairs[|pairs| - 1];
      GroupDistinct(prefix);
      var g0, g := Group(prefix), Group(pairs);
      assert g == AddPair(g0, p);
      forall i, j | 0 <= i < j < |g|
        ensures g[i].name != g[j].name
      {
        if j < |g0| {
          assert g[i].name == g0[i].name && g[j].name == g0[j].name;
        } else {
          assert g[j].name == p.name && g[i].name == g0[i].name;
        }
      }
    }
  }

  lemma {:induction false} GroupNames(pairs: seq<Pair>)
    ensures forall k :: 0 <= k < |pairs| ==> IndexOf(Group(pairs), pairs[k].name).Some?
    decreases |pairs|
  {
    if pairs != [] {
      var prefix, p := pairs[..|pairs| - 1], pairs[|pairs| - 1];
      GroupNames(prefix);
      var g0, g := Group(prefix), Group(pairs);
      assert g == AddPair(g0, p);
      forall k | 0 <= k < |pairs|
        ensures IndexOf(g, pairs[k].name).Some?
      {
        var n := pairs[k].name;
        if k < |prefix| {
          assert prefix[k] == pairs[k];
          var m := IndexOf(g0, n).value;
          assert g[m].name == n;
        } else if IndexOf(g0, p.name).Some? {
          var m := IndexOf(g0, p.name).value;
          assert g[m].name == n;
        } else {
          assert g[|g0|].name == n;
        }
      }
    }
  }

  lemma {:induction false} GroupValues(pairs: seq<Pair>)
    ensures forall i :: 0 <= i < |Group(pairs)| ==> Group(pairs)[i].values == ValuesFor(pairs, Group(pairs)[i].name)
    decreases |pairs|
  {
    if pairs != [] {
      var prefix, p := pairs[..|pairs| - 1], pairs[|pairs| - 1];
      GroupValues(prefix);
      var g0, g := Group(prefix), Group(pairs);
      assert g == AddPair(g0, p);
      forall i | 0 <= i < |g|
        ensures g[i].values == ValuesFor(pairs, g[i].name)
      {
        var n := g[i].name;
        assert ValuesFor(pairs, n) == ValuesFor(prefix, n) + if p.name == n then [p.value] else [];
        if i < |g0| && g0[i].name != p.name {
          assert g[i] == g0[i];
        } else if i < |g0| {
          assert IndexOf(g0, p.name) == Some(i) by {
            GroupDistinct(prefix);
          }
          assert g[i].values == g0[i].values + [p.value];
          assert g0[i].name == n;
          assert g0[i].values == ValuesFor(prefix, g0[i].name);
        } else {
          assert IndexOf(g0, p.name).None?;
          assert g[i] == QsField(p.name, [p.value]);
          NewNameHasNoValues(prefix, p.name);
          assert ValuesFor(prefix, n) == [];
        }
      }
    }
  }

  /** A name the grouping does not hold has no values among the pairs. */
  lemma NewNameHasNoValues(pairs: seq<Pair>, name: string)
    requires IndexOf(Group(pairs), name).None?
    ensures ValuesFor(pairs, name) == []
  {
    GroupNames(pairs);
  }

  /** `parse_qs` never leaves a name without values. */
  lemma GroupWellFormed(pairs: seq<Pair>)
    ensures WellFormed(Group(pairs))
  {
    GroupSpec(pairs);
    var g := Group(pairs);
    forall i | 0 <= i < |g|
      ensures g[i].values != []
    {
      GroupNamesOccur(pairs, i);
    }
  }

  /** Every grouped name occurs among the pairs. */
  lemma {:induction false} GroupNamesOccur(pairs: seq<Pair>, i: int)
    requires 0 <= i < |Group(pairs)|
    ensures exists k :: 0 <= k < |pairs| && pairs[k].name == Group(pairs)[i].name
    decreases |pairs|
  {
    var prefix, p := pairs[..|pairs| - 1], pairs[|pairs| - 1];
    var g0 := Group(prefix);
    assert forall k :: 0 <= k < |prefix| ==> prefix[k] == pairs[k];
    if i < |g0| && Group(pairs)[i].name == g0[i].name {
      GroupNamesOccur(prefix, i);
      var k :| 0 <= k < |prefix| && prefix[k].name == g0[i].name;
      assert pairs[k].name == Group(pairs)[i].name;
    } else {
      assert Group(pairs)[i].name == p.name;
      assert pairs[|pairs| - 1].name == Group(pairs)[i].name;
    }
  }

  /* ---------------- the data-check string ---------------- */

  /** `f"{key}={values[0]}"`. */
  function Line(f: QsField): string
    requires f.values != []
  {
    f.name + "=" + f.values[0]
  }

  /** The positions of the fields other than `hash` from `lo` on, in
      increasing order. */
  function NonHashFrom(g: seq<QsField>, lo: nat): (idx: seq<nat>)
    ensures forall k :: 0 <= k < |idx| ==> lo <= idx[k] < |g| && g[idx[k]].name != "hash"
    decreases |g| - lo
  {
    if lo >= |g| then []
    else (if g[lo].name == "hash" then [] else [lo]) + NonHashFrom(g, lo + 1)
  }

  /** The positions are increasing and miss no field other than `hash`:
      together with the contract of `NonHashFrom` they are exactly the
      positions of those fields, in order. */
  lemma NonHashFromSelects(g: seq<QsField>, lo: nat)
    ensures forall k, m :: 0 <= k < m < |NonHashFrom(g, lo)| ==> NonHashFrom(g, lo)[k] < NonHashFrom(g, lo)[m]
    ensures forall i :: lo <= i < |g| && g[i].name != "hash" ==> i in NonHashFrom(g, lo)
  {
    NonHashFromIncreasing(g, lo);
    NonHashFromComplete(g, lo);
  }

  lemma {:induction false} NonHashFromIncreasing(g: seq<QsField>, lo: nat)
    ensures forall k, m :: 0 <= k < m < |NonHashFrom(g, lo)| ==> NonHashFrom(g, lo)[k] < NonHashFrom(g, lo)[m]
    decreases |g| - lo
  {
    if lo < |g| {
      NonHashFromIncreasing(g, lo + 1);
      var h := if g[lo].name == "hash" then [] else [lo];
      var t := NonHashFrom(g, lo + 1);
      assert NonHashFrom(g, lo) == h + t;
      forall k, m | 0 <= k < m < |h + t|
        ensures (h + t)[k] < (h + t)[m]
      {
        if k < |h| {
          assert (h + t)[m] == t[m - |h|];
        } else {
          assert (h + t)[k] == t[k - |h|] && (h + t)[m] == t[m - |h|];
        }
      }
    }
  }

  lemma {:induction false} NonHashFromComplete(g: seq<QsField>, lo: nat)
    ensures forall i :: lo <= i < |g| && g[i].name != "hash" ==> i in NonHashFrom(g, lo)
    decreases |g| - lo
  {
    if lo < |g| {
      NonHashFromComplete(g, lo + 1);
      var h := if g[lo].name == "hash" then [] else [lo];
      var t := NonHashFrom(g, lo + 1);
      assert NonHashFrom(g, lo) == h + t;
      forall i | lo <= i < |g| && g[i].name != "hash"
        ensures i in h + t
      {
        if i == lo {
          assert (h + t)[0] == lo;
        } else {
          var j :| 0 <= j < |t| && t[j] == i;
          assert (h + t)[|h| + j] == i;
        }
      }
    }
  }

  /** Every position moved up by one. */
  function Shifted(s: seq<nat>): (r: seq<nat>)
    ensures |r| == |s|
    ensures forall k :: 0 <= k < |s| ==> r[k] == s[k] + 1
  {
    if s == [] then [] else [s[0] + 1] + Shifted(s[1..])
  }

  lemma ShiftedAppend(a: seq<nat>, b: seq<nat>)
    ensures Shifted(a + b) == Shifted(a) + Shifted(b)
  {
    assert forall k :: 0 <= k < |a| ==> (a + b)[k] == a[k];
    assert forall k :: |a| <= k < |a| + |b| ==> (a + b)[k] == b[k - |a|];
  }

  /** Dropping the first field moves every later position down by one. */
  lemma {:induction false} NonHashShift(g: seq<QsField>, lo: nat)
    requires g != []
    ensures NonHashFrom(g, lo + 1) == Shifted(NonHashFrom(g[1..], lo))
    decreases |g| - lo
  {
    if lo + 1 < |g| {
      assert g[lo + 1] == g[1..][lo];
      NonHashShift(g, lo + 1);
      var h := if g[1..][lo].name == "hash" then [] else [lo];
      ShiftedAppend(h, NonHashFrom(g[1..], lo + 1));
    }
  }

  /** The lines of every field but `hash`, in field order: one line for
      each such field, the k-th line for the k-th such field. */
  function DataCheckLines(g: seq<QsField>): (lines: seq<string>)
    requires WellFormed(g)
    ensures |lines| <= |g|
    ensures forall i :: 0 <= i < |g| && g[i].name != "hash" ==> Line(g[i]) in lines
    ensures forall l :: l in lines ==> exists i :: 0 <= i < |g| && g[i].name != "hash" && l == Line(g[i])
    ensures |lines| == |NonHashFrom(g, 0)|
    ensures forall k :: 0 <= k < |lines| ==> lines[k] == Line(g[NonHashFrom(g, 0)[k]])
  {
    if g == [] then []
    else
      var rest := DataCheckLines(g[1..]);
      assert forall i :: 1 <= i < |g| ==> g[i] == g[1..][i - 1];
      var head := if g[0].name == "hash" then [] else [Line(g[0])];
      NonHashShift(g, 0);
      SelectedLines(g, head, rest);
      LinesOfSelection(g, head + rest);
      head + rest
  }

  /** Lines taken position by position from the fields other than `hash`
      hold the line of every such field and no other line. */
  lemma LinesOfSelection(g: seq<QsField>, lines: seq<string>)
    requires WellFormed(g)
    requires |lines| == |NonHashFrom(g, 0)|
    requires forall k :: 0 <= k < |lines| ==> lines[k] == Line(g[NonHashFrom(g, 0)[k]])
    ensures |lines| <= |g|
    ensures forall i :: 0 <= i < |g| && g[i].name != "hash" ==> Line(g[i]) in lines
    ensures forall l :: l in lines ==> exists i :: 0 <= i < |g| && g[i].name != "hash" && l == Line(g[i])
  {
    var idx := NonHashFrom(g, 0);
    NonHashFromSelects(g, 0);
    IncreasingBelowIsShort(idx, |g|);
    forall i | 0 <= i < |g| && g[i].name != "hash"
      ensures Line(g[i]) in lines
    {
      var k :| 0 <= k < |idx| && idx[k] == i;
      assert lines[k] == Line(g[i]);
    }
    forall l | l in lines
      ensures exists i :: 0 <= i < |g| && g[i].name != "hash" && l == Line(g[i])
    {
      var k :| 0 <= k < |lines| && lines[k] == l;
      assert g[idx[k]].name != "hash";
    }
  }

  /** An increasing sequence of positions below `n` has at most `n` of them. */
  lemma {:induction false} IncreasingBelowIsShort(s: seq<nat>, n: nat)
    requires forall k :: 0 <= k < |s| ==> s[k] < n
    requires forall k, m :: 0 <= k < m < |s| ==> s[k] < s[m]
    ensures |s| <= n
    decreases |s|
  {
    if s != [] {
      var init, last := s[..|s| - 1], s[|s| - 1];
      forall k | 0 <= k < |init|
        ensures init[k] < last
      {
        assert init[k] == s[k];
      }
      IncreasingBelowIsShort(init, last);
    }
  }

  /** The first field's line, if any, followed by the lines of the rest
      are the lines of the selected positions. */
  lemma SelectedLines(g: seq<QsField>, head: seq<string>, rest: seq<string>)
    requires WellFormed(g) && g != []
    requires head == if g[0].name == "hash" then [] else [Line(g[0])]
    requires |rest| == |NonHashFrom(g[1..], 0)|
    requires forall k :: 0 <= k < |rest| ==> rest[k] == Line(g[1..][NonHashFrom(g[1..], 0)[k]])
    requires NonHashFrom(g, 1) == Shifted(NonHashFrom(g[1..], 0))
    ensures |head + rest| == |NonHashFrom(g, 0)|
    ensures forall k :: 0 <= k < |head + rest| ==> (head + rest)[k] == Line(g[NonHashFrom(g, 0)[k]])
  {
    var idx, tail := NonHashFrom(g, 0), NonHashFrom(g[1..], 0);
    assert idx == (if g[0].name == "hash" then [] else [0]) + Shifted(tail);
    forall k | 0 <= k < |head + rest|
      ensures (head + rest)[k] == Line(g[idx[k]])
    {
      if k >= |head| {
        var j := k - |head|;
        assert idx[k] == tail[j] + 1;
        assert g[1..][tail[j]] == g[idx[k]];
      }
    }
  }

  /** `'\n'.join(sorted(lines))`. */
  function DataCheckString(g: seq<QsField>): string
    requires WellFormed(g)
  {
    Text.Join(Lex.Sort(DataCheckLines(g)), '\n')
  }

  /** When no name or first value holds a line break, the check string
      splits back into the sorted lines. */
  lemma DataCheckStringLines(g: seq<QsField>)
    requires WellFormed(g)
    requires DataCheckLines(g) != []
    requires forall i :: 0 <= i < |g| ==> '\n' !in g[i].name && '\n' !in g[i].values[0]
    ensures var lines := Text.Split(DataCheckString(g), '\n');
      && Lex.Sorted(lines)
      && multiset(lines) == multiset(DataCheckLines(g))
  {
    var sorted := Lex.Sort(DataCheckLines(g));
    LinesHaveNoBreak(g);
    forall k | 0 <= k < |sorted|
      ensures '\n' !in sorted[k]
    {
      assert sorted[k] in multiset(sorted);
    }
    assert |sorted| >= 1 by {
      assert |multiset(sorted)| == |multiset(DataCheckLines(g))|;
    }
    Text.SplitJoin(sorted, '\n');
  }

  lemma {:induction false} LinesHaveNoBreak(g: seq<QsField>)
    requires WellFormed(g)
    requires forall i :: 0 <= i < |g| ==> '\n' !in g[i].name && '\n' !in g[i].values[0]
    ensures forall l :: l in DataCheckLines(g) ==> '\n' !in l
    decreases |g|
  {
    if g != [] {
      var f := g[0];
      assert forall i :: 1 <= i < |g| ==> g[1..][i - 1] == g[i];
      LinesHaveNoBreak(g[1..]);
      assert '\n' !in f.name + "=" + f.values[0];
    }
  }

  lemma {:induction false} DataCheckLinesAppend(a: seq<QsField>, b: seq<QsField>)
    requires WellFormed(a) && WellFormed(b)
    ensures WellFormed(a + b)
    ensures DataCheckLines(a + b) == DataCheckLines(a) + DataCheckLines(b)
    decreases |a|
  {
    if a != [] {
      assert (a + b)[1..] == a[1..] + b;
      DataCheckLinesAppend(a[1..], b);
    } else {
      assert a + b == b;
    }
  }

  /** The `hash` field, wherever it sits and whatever it holds, is not
      part of the check string. */
  lemma HashFieldIgnored(a: seq<QsField>, b: seq<QsField>, hashValues: seq<string>)
    requires WellFormed(a) && WellFormed(b) && hashValues != []
    ensures WellFormed(a + [QsField("hash", hashValues)] + b)
    ensures DataCheckString(a + [QsField("hash", hashValues)] + b) == DataCheckString(a + b)
  {
    HashLinesIgnored(a, b, QsField("hash", hashValues));
  }

  lemma HashLinesIgnored(a: seq<QsField>, b: seq<QsField>, h: QsField)
    requires WellFormed(a) && WellFormed(b) && h.values != [] && h.name == "hash"
    ensures WellFormed(a + [h] + b)
    ensures DataCheckLines(a + [h] + b) == DataCheckLines(a + b)
  {
    assert DataCheckLines([h]) == [] by {
      assert [h][1..] == [];
      assert DataCheckLines([h]) == [] + DataCheckLines([]);
    }
    DataCheckLinesAppend(a, [h]);
    var ah := a + [h];
    assert DataCheckLines(ah) == DataCheckLines(a);
    DataCheckLinesAppend(ah, b);
    DataCheckLinesAppend(a, b);
  }

  /** Only the first value of a repeated name is signed. */
  lemma LaterValuesIgnored(a: seq<QsField>, b: seq<QsField>, name: string, first: string, more: seq<string>)
    requires WellFormed(a) && WellFormed(b)
    ensures WellFormed(a + [QsField(name, [first] + more)] + b) && WellFormed(a + [QsField(name, [first])] + b)
    ensures DataCheckString(a + [QsField(name, [first] + more)] + b) == DataCheckString(a + [QsField(name, [first])] + b)
  {
    var f1, f2 := [QsField(name, [first] + more)], [QsField(name, [first])];
    DataCheckLinesAppend(a, f1);
    DataCheckLinesAppend(a + f1, b);
    DataCheckLinesAppend(a, f2);
    DataCheckLinesAppend(a + f2, b);
    assert DataCheckLines(f1) == DataCheckLines(f2);
  }

  /** The check string does not depend on the order of the fields. */
  lemma DataCheckStringOrderFree(g1: seq<QsField>, g2: seq<QsField>)
    requires WellFormed(g1) && WellFormed(g2)
    requires multiset(g1) == multiset(g2)
    ensures DataCheckString(g1) == DataCheckString(g2)
  {
    DataCheckLinesPermutation(g1, g2);
    Lex.SortPermutationInvariant(DataCheckLines(g1), DataCheckLines(g2));
  }

  lemma {:induction false} DataCheckLinesPermutation(g1: seq<QsField>, g2: seq<QsField>)
    requires WellFormed(g1) && WellFormed(g2)
    requires multiset(g1) == multiset(g2)
    ensures multiset(DataCheckLines(g1)) == multiset(DataCheckLines(g2))
    decreases |g1|
  {
    if g1 != [] {
      var x := g1[0];
      assert x in multiset(g2);
      var j :| 0 <= j < |g2| && g2[j] == x;
      var rest2 := RemoveAt(g2, j);
      RemoveAtMultiset(g1, 0);
      RemoveAtMultiset(g2, j);
      assert RemoveAt(g1, 0) == g1[1..];
      LinesRemoveAt(g1, 0);
      LinesRemoveAt(g2, j);
      DataCheckLinesPermutation(g1[1..], rest2);
    }
  }

  function RemoveAt(g: seq<QsField>, j: int): seq<QsField>
    requires 0 <= j < |g|
  {
    g[..j] + g[j + 1..]
  }

  lemma RemoveAtMultiset(g: seq<QsField>, j: int)
    requires 0 <= j < |g|
    ensures multiset(RemoveAt(g, j)) == multiset(g) - multiset{g[j]}
  {
    assert g == g[..j] + [g[j]] + g[j + 1..];
  }

  /** The lines of a field list are the lines of one field and those of
      the others. */
  lemma LinesRemoveAt(g: seq<QsField>, j: int)
    requires WellFormed(g) && 0 <= j < |g|
    ensures WellFormed(RemoveAt(g, j)) && WellFormed([g[j]])
    ensures multiset(DataCheckLines(g)) == multiset(DataCheckLines([g[j]])) + multiset(DataCheckLines(RemoveAt(g, j)))
  {
    var a, x, b := g[..j], [g[j]], g[j + 1..];
    SplitAround(g, j);
    WellFormedSlice(g, 0, j);
    WellFormedSlice(g, j + 1, |g|);
    LinesOfThree(a, x, b);
  }

  lemma LinesOfThree(a: seq<QsField>, x: seq<QsField>, b: seq<QsField>)
    requires WellFormed(a) && WellFormed(x) && WellFormed(b)
    ensures WellFormed(a + x + b) && WellFormed(a + b)
    ensures multiset(DataCheckLines(a + x + b)) == multiset(DataCheckLines(x)) + multiset(DataCheckLines(a + b))
  {
    DataCheckLinesAppend(a, x);
    DataCheckLinesAppend(a + x, b);
    DataCheckLinesAppend(a, b);
    var la, lx, lb := DataCheckLines(a), DataCheckLines(x), DataCheckLines(b);
    assert multiset(la + lx + lb) == multiset(lx) + multiset(la + lb);
  }

  lemma SplitAround(g: seq<QsField>, j: int)
    requires 0 <= j < |g|
    ensures g == g[..j] + [g[j]] + g[j + 1..]
    ensures g[0..j] == g[..j] && g[j + 1..|g|] == g[j + 1..]
  {
  }

  lemma WellFormedSlice(g: seq<QsField>, lo: int, hi: int)
    requires WellFormed(g) && 0 <= lo <= hi <= |g|
    ensures WellFormed(g[lo..hi])
  {
    forall i | 0 <= i < hi - lo
      ensures g[lo..hi][i].values != []
    {
      assert g[lo..hi][i] == g[lo + i];
    }
  }

  /* ---------------- signature check ---------------- */

  /** `parsed.get(name, [None])[0]`: the first value of the field called
      `name`, if there is one. */
  function FirstValue(g: seq<QsField>, name: string): (r: Option<string>)
    requires WellFormed(g)
    ensures r.Some? <==> exists i :: 0 <= i < |g| && g[i].name == name
    ensures r.Some? ==> exists i :: 0 <= i < |g| && g[i].name == name && r.value == g[i].values[0]
                                    && forall j :: 0 <= j < i ==> g[j].name != name
    ensures r.Some? && DistinctNames(g) ==> forall i :: 0 <= i < |g| && g[i].name == name ==> r.value == g[i].values[0]
  {
    match IndexOf(g, name)
    case Some(i) => Some(g[i].values[0])
    case None => None
  }

  /** The first value of the `hash` field, if there is one. */
  function HashValue(g: seq<QsField>): (r: Option<string>)
    requires WellFormed(g)
    ensures r.Some? <==> exists i :: 0 <= i < |g| && g[i].name == "hash"
    ensures r.Some? ==> exists i :: 0 <= i < |g| && g[i].name == "hash" && r.value == g[i].values[0]
                                    && forall j :: 0 <= j < i ==> g[j].name != "hash"
  {
    FirstValue(g, "hash")
  }

  /** `verify_telegram_init_data`: `sign(token, text)` stands for the hex
      HMAC-SHA256 of `text` under the key derived from the bot token.  The
      grouped fields come back when the token and init data are non-empty,
      a non-empty `hash` is present and it equals the signature of the
      check string; otherwise nothing. */
  function Verify(token: string, initData: string, unquote: string -> string,
                  sign: (string, string) -> string): (r: Option<seq<QsField>>)
    ensures r.Some? ==> token != "" && initData != "" && r.value == Group(ParseQsl(initData, unquote))
    ensures r.Some? ==> (WellFormed(r.value) && HashValue(r.value).Some? && HashValue(r.value).value != ""
      && sign(token, DataCheckString(r.value)) == HashValue(r.value).value)
    ensures token != "" && initData != "" && WellFormed(Group(ParseQsl(initData, unquote)))
      && HashValue(Group(ParseQsl(initData, unquote))).Some?
      && HashValue(Group(ParseQsl(initData, unquote))).value != ""
      && sign(token, DataCheckString(Group(ParseQsl(initData, unquote)))) == HashValue(Group(ParseQsl(initData, unquote))).value
      ==> r.Some?
  {
    if token == "" || initData == "" then None
    else
      var g := Group(ParseQsl(initData, unquote));
      GroupWellFormed(ParseQsl(initData, unquote));
      match HashValue(g)
      case None => None
      case Some(h) =>
        if h == "" then None
        else if sign(token, DataCheckString(g)) == h then Some(g)
        else None
  }

  /** Without a `hash` field no init data verifies. */
  lemma MissingHashRejected(token: string, initData: string, unquote: string -> string, sign: (string, string) -> string)
    requires forall k :: 0 <= k < |ParseQsl(initData, unquote)| ==> ParseQsl(initData, unquote)[k].name != "hash"
    ensures Verify(token, initData, unquote, sign).None?
  {
    var ps := ParseQsl(initData, unquote);
    GroupWellFormed(ps);
    var g := Group(ps);
    if HashValue(g).Some? {
      var i :| 0 <= i < |g| && g[i].name == "hash";
      GroupNamesOccur(ps, i);
    }
  }

  /** Two init-data strings with the same fields in another order verify
      alike. */
  lemma VerifyOrderFree(token: string, q1: string, q2: string, unquote: string -> string, sign: (string, string) -> string)
    requires q1 != "" && q2 != ""
    requires multiset(Group(ParseQsl(q1, unquote))) == multiset(Group(ParseQsl(q2, unquote)))
    ensures Verify(token, q1, unquote, sign).Some? <==> Verify(token, q2, unquote, sign).Some?
  {
    var g1, g2 := Group(ParseQsl(q1, unquote)), Group(ParseQsl(q2, unquote));
    GroupWellFormed(ParseQsl(q1, unquote));
    GroupWellFormed(ParseQsl(q2, unquote));
    GroupSpec(ParseQsl(q1, unquote));
    GroupSpec(ParseQsl(q2, unquote));
    DataCheckStringOrderFree(g1, g2);
    SameHash(g1, g2);
  }

  /** Fields with distinct names hold the same `hash` whatever their order. */
  lemma SameHash(g1: seq<QsField>, g2: seq<QsField>)
    requires WellFormed(g1) && WellFormed(g2) && DistinctNames(g1) && DistinctNames(g2)
    requires multiset(g1) == multiset(g2)
    ensures HashValue(g1) == HashValue(g2)
  {
    if IndexOf(g1, "hash").Some? {
      FieldFound(g1, g2, "hash");
    } else if IndexOf(g2, "hash").Some? {
      FieldFound(g2, g1, "hash");
    }
  }

  /** The field a name finds is found again, whole, in any permutation with
      distinct names. */
  lemma FieldFound(g1: seq<QsField>, g2: seq<QsField>, name: string)
    requires DistinctNames(g2) && multiset(g1) == multiset(g2)
    requires IndexOf(g1, name).Some?
    ensures IndexOf(g2, name).Some? && g2[IndexOf(g2, name).value] == g1[IndexOf(g1, name).value]
  {
    var i := IndexOf(g1, name).value;
    assert g1[i] in multiset(g2);
    var j :| 0 <= j < |g2| && g2[j] == g1[i];
    assert IndexOf(g2, name) == Some(j);
  }

  /* ---------------- Authorization header ---------------- */

  /** `authorization[4:]` after the `tma ` prefix test; a missing header or
      one without the prefix gives nothing. */
  function StripTmaPrefix(authorization: Option<string>): (r: Option<string>)
    ensures r.Some? <==> authorization.Some? && Text.StartsWith(authorization.value, "tma ")
    ensures r.Some? ==> "tma " + r.value == authorization.value
  {
    match authorization
    case Some(a) =>
      if Text.StartsWith(a, "tma ") then
        assert a == a[..4] + a[4..];
        Some(a[4..])
      else None
    case None => None
  }

  /** The prefix is removed exactly once. */
  lemma StripTmaPrefixOf(initData: string)
    ensures StripTmaPrefix(Some("tma " + initData)) == Some(initData)
  {
    assert ("tma " + initData)[..4] == "tma ";
    assert ("tma " + initData)[4..] == initData;
  }

  /** The grouped fields of the init data behind the `tma ` prefix, when
      they verify; their names are distinct and each has a value. */
  function VerifiedHeader(token: string, authorization: Option<string>, unquote: string -> string,
                          sign: (string, string) -> string): (r: Option<seq<QsField>>)
    ensures r.Some? <==> (StripTmaPrefix(authorization).Some?
      && Verify(token, StripTmaPrefix(authorization).value, unquote, sign).Some?)
    ensures r.Some? ==> r == Verify(token, StripTmaPrefix(authorization).value, unquote, sign)
    ensures r.Some? ==> WellFormed(r.value) && DistinctNames(r.value)
  {
    match StripTmaPrefix(authorization)
    case None => None
    case Some(initData) =>
      GroupDistinct(ParseQsl(initData, unquote));
      Verify(token, initData, unquote, sign)
  }

  /** `get_current_user` up to decoding the user JSON: the first `user`
      value of init data that verifies, behind the `tma ` prefix; verified
      init data with a `user` field always yields it. */
  function CurrentUserJson(token: string, authorization: Option<string>, unquote: string -> string,
                           sign: (string, string) -> string): (r: Option<string>)
    ensures r.Some? <==> (VerifiedHeader(token, authorization, unquote, sign).Some?
      && exists i :: 0 <= i < |VerifiedHeader(token, authorization, unquote, sign).value|
                     && VerifiedHeader(token, authorization, unquote, sign).value[i].name == "user")
    ensures r.Some? ==> var g := VerifiedHeader(token, authorization, unquote, sign).value;
      forall i :: 0 <= i < |g| && g[i].name == "user" ==> r.value == g[i].values[0]
  {
    match VerifiedHeader(token, authorization, unquote, sign)
    case None => None
    case Some(g) => FirstValue(g, "user")
  }

  /** The user behind the prefix does not depend on the order of the
      init-data fields. */
  lemma CurrentUserOrderFree(token: string, q1: string, q2: string, unquote: string -> string,
                             sign: (string, string) -> string)
    requires q1 != "" && q2 != ""
    requires multiset(Group(ParseQsl(q1, unquote))) == multiset(Group(ParseQsl(q2, unquote)))
    ensures CurrentUserJson(token, Some("tma " + q1), unquote, sign) == CurrentUserJson(token, Some("tma " + q2), unquote, sign)
  {
    StripTmaPrefixOf(q1);
    StripTmaPrefixOf(q2);
    VerifyOrderFree(token, q1, q2, unquote, sign);
    var g1, g2 := Group(ParseQsl(q1, unquote)), Group(ParseQsl(q2, unquote));
    GroupDistinct(ParseQsl(q1, unquote));
    GroupDistinct(ParseQsl(q2, unquote));
    if IndexOf(g1, "user").Some? {
      FieldFound(g1, g2, "user");
    } else if IndexOf(g2, "user").Some? {
      FieldFound(g2, g1, "user");
    }
  }
}
