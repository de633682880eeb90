/** Character-level string helpers shared by both servers: ASCII case
    folding, whitespace stripping, splitting on separator characters and
    joining.  Strings are sequences of Unicode scalar values, as in Python;
    the servers' string functions are modelled on their ASCII behaviour. */
module Text {
  import opened Wrappers

  /* ---------------- case folding ---------------- */

  predicate IsUpper(c: char) {
    'A' <= c <= 'Z'
  }

  function ToLowerChar(c: char): (d: char)
    ensures !IsUpper(d)
    ensures !IsUpper(c) ==> d == c
  {
    if IsUpper(c) then (c as int + 32) as char else c
  }

  /** True when no character of `s` is an upper-case letter. */
  predicate NoUpper(s: string) {
    forall i :: 0 <= i < |s| ==> !IsUpper(s[i])
  }

  /** `str.lower()` / `String.prototype.toLowerCase()` on ASCII letters. */
  function Lower(s: string): (r: string)
    ensures |r| == |s|
    ensures forall i :: 0 <= i < |s| ==> r[i] == ToLowerChar(s[i])
    ensures NoUpper(r)
    ensures NoUpper(s) ==> r == s
  {
    if s == [] then [] else [ToLowerChar(s[0])] + Lower(s[1..])
  }

  lemma LowerIdempotent(s: string)
    ensures Lower(Lower(s)) == Lower(s)
  {
  }

  /* ---------------- whitespace ---------------- */

  /** The ASCII whitespace that both `str.strip()` and `String.prototype.trim()`
      remove.  Each removes more: `strip` also U+001C to U+001F, `trim` also
      U+FEFF and the Unicode spaces. */
  predicate IsSpace(c: char) {
    c == ' ' || c == '\t' || c == '\n' || c == '\r' || c == '\U{0B}' || c == '\U{0C}'
  }

  /** Number of whitespace characters at the front of `s`. */
  function LeadingSpaces(s: string): (n: nat)
    ensures n <= |s|
    ensures forall k :: 0 <= k < n ==> IsSpace(s[k])
    ensures n < |s| ==> !IsSpace(s[n])
  {
    if s != [] && IsSpace(s[0]) then 1 + LeadingSpaces(s[1..]) else 0
  }

  /** Number of whitespace characters at the back of `s`. */
  function TrailingSpaces(s: string): (n: nat)
    ensures n <= |s|
    ensures forall k :: |s| - n <= k < |s| ==> IsSpace(s[k])
    ensures n < |s| ==> !IsSpace(s[|s| - n - 1])
  {
    if s != [] && IsSpace(s[|s| - 1]) then 1 + TrailingSpaces(s[..|s| - 1]) else 0
  }

  /** `s.strip()` / `s.trim()`: the longest infix of `s` that neither starts
      nor ends with whitespace, obtained by dropping whitespace at both ends. */
  function Strip(s: string): (r: string)
    ensures LeadingSpaces(s) + |r| <= |s|
    ensures r == s[LeadingSpaces(s)..LeadingSpaces(s) + |r|]
    ensures forall k :: LeadingSpaces(s) + |r| <= k < |s| ==> IsSpace(s[k])
    ensures r != [] ==> !IsSpace(r[0]) && !IsSpace(r[|r| - 1])
    ensures (s == [] || (!IsSpace(s[0]) && !IsSpace(s[|s| - 1]))) ==> r == s
  {
    var t := s[LeadingSpaces(s)..];
    t[..|t| - TrailingSpaces(t)]
  }

  /* ---------------- prefixes and searching ---------------- */

  predicate StartsWith(s: string, prefix: string) {
    |prefix| <= |s| && s[..|prefix|] == prefix
  }

  /** Index of the first character of `s` that belongs to `seps`. */
  function FirstIndexIn(s: string, seps: set<char>): (i: nat)
    requires exists k :: 0 <= k < |s| && s[k] in seps
    ensures i < |s| && s[i] in seps
    ensures forall k :: 0 <= k < i ==> s[k] !in seps
  {
    if s[0] in seps then 0
    else
      assert exists k :: 0 <= k < |s[1..]| && s[1..][k] in seps by {
        var k :| 0 <= k < |s| && s[k] in seps;
        assert k != 0 && s[1..][k - 1] == s[k];
      }
      1 + FirstIndexIn(s[1..], seps)
  }

  /** True when some character of `s` is in `seps`. */
  predicate ContainsAny(s: string, seps: set<char>) {
    exists k :: 0 <= k < |s| && s[k] in seps
  }

  /** `s.split(c, 1)` when `c` occurs: the text before the first `c` and
      the text after it. */
  function SplitOnce(s: string, c: char): (r: Option<(string, string)>)
    ensures r.None? <==> c !in s
    ensures r.Some? ==> s == r.value.0 + [c] + r.value.1 && c !in r.value.0
  {
    if c in s then
      assert ContainsAny(s, {c}) by {
        var k :| 0 <= k < |s| && s[k] == c;
        assert s[k] in {c};
      }
      var i := FirstIndexIn(s, {c});
      assert s == s[..i] + [c] + s[i + 1..];
      Some((s[..i], s[i + 1..]))
    else None
  }

  /** The split at the first `c` is the only way to write `s` as
      `a + [c] + b` with no `c` in `a`. */
  lemma SplitOnceUnique(a: string, b: string, c: char)
    requires c !in a
    ensures SplitOnce(a + [c] + b, c) == Some((a, b))
  {
    var s := a + [c] + b;
    var r := SplitOnce(s, c);
    var a', b' := r.value.0, r.value.1;
    assert forall k :: 0 <= k < |a| ==> s[k] == a[k];
    assert forall k :: 0 <= k < |a'| ==> s[k] == a'[k];
    assert s[|a|] == c && s[|a'|] == c;
    assert |a'| == |a|;
    assert a' == s[..|a|] == a;
    assert b' == s[|a| + 1..] == b;
  }

  /* ---------------- split and join ---------------- */

  /** `parts` joined with the single character `sep` between neighbours;
      `sep.join(parts)` in Python. */
  function Join(parts: seq<string>, sep: char): string
  {
    if |parts| == 0 then ""
    else if |parts| == 1 then parts[0]
    else parts[0] + [sep] + Join(parts[1..], sep)
  }

  /** Splits `s` at every character that belongs to `seps`, keeping empty
      fields: JavaScript's `s.split(/[...]/)` with a character class. */
  function SplitAny(s: string, seps: set<char>): (parts: seq<string>)
    ensures |parts| >= 1
    ensures forall i :: 0 <= i < |parts| ==> !ContainsAny(parts[i], seps)
    ensures forall c :: seps == {c} ==> Join(parts, c) == s
    decreases |s|
  {
    if !ContainsAny(s, seps) then [s]
    else
      var i := FirstIndexIn(s, seps);
      var rest := SplitAny(s[i + 1..], seps);
      assert forall c :: seps == {c} ==> s[..i] + [c] + s[i + 1..] == s;
      [s[..i]] + rest
  }

  /** `s.split(sep)` in both languages, for a one-character separator. */
  function Split(s: string, sep: char): (parts: seq<string>)
    ensures |parts| >= 1
    ensures forall i :: 0 <= i < |parts| ==> sep !in parts[i]
    ensures Join(parts, sep) == s
  {
    var parts := SplitAny(s, {sep});
    assert forall i :: 0 <= i < |parts| ==> sep !in parts[i] by {
      forall i | 0 <= i < |parts|
        ensures sep !in parts[i]
      {
        assert !ContainsAny(parts[i], {sep});
      }
    }
    parts
  }

  /** The fields of a split around the first separator: the text before
      it, then the split of the text after it. */
  lemma SplitAtFirst(s: string, sep: char)
    ensures sep !in s ==> Split(s, sep) == [s]
    ensures sep in s ==> var i := FirstIndexIn(s, {sep});
      Split(s, sep) == [s[..i]] + Split(s[i + 1..], sep)
  {
    if sep in s {
      var i :| 0 <= i < |s| && s[i] == sep;
      assert ContainsAny(s, {sep}) by { assert s[i] in {sep}; }
    } else {
      assert !ContainsAny(s, {sep});
    }
  }

  /** Splitting a joined list gives the list back, when no element contains
      the separator. */
  lemma {:induction false} SplitJoin(parts: seq<string>, sep: char)
    requires |parts| >= 1
    requires forall i :: 0 <= i < |parts| ==> sep !in parts[i]
    ensures Split(Join(parts, sep), sep) == parts
  {
    if |parts| == 1 {
      assert !ContainsAny(parts[0], {sep});
    } else {
      var s := Join(parts, sep);
      var head := parts[0];
      assert s == head + [sep] + Join(parts[1..], sep);
      assert s[|head|] == sep;
      assert forall k :: 0 <= k < |head| ==> s[k] == head[k];
      var i := FirstIndexIn(s, {sep});
      assert i == |head|;
      assert s[..i] == head;
      assert s[i + 1..] == Join(parts[1..], sep);
      SplitJoin(parts[1..], sep);
      assert SplitAny(s, {sep}) == [s[..i]] + SplitAny(s[i + 1..], {sep});
      assert parts == [head] + parts[1..];
    }
  }

  /** A separator inside a string splits it into the fields on either side. */
  lemma SplitAppend(a: string, b: string, sep: char)
    ensures Split(a + [sep] + b, sep) == Split(a, sep) + Split(b, sep)
  {
    var pa := Split(a, sep);
    var pb := Split(b, sep);
    JoinAppend(pa, pb, sep);
    SplitJoin(pa + pb, sep);
  }

  lemma {:induction false} JoinAppend(xs: seq<string>, ys: seq<string>, sep: char)
    requires |xs| >= 1 && |ys| >= 1
    ensures Join(xs + ys, sep) == Join(xs, sep) + [sep] + Join(ys, sep)
  {
    if |xs| == 1 {
      assert (xs + ys)[1..] == ys;
    } else {
      assert (xs + ys)[1..] == xs[1..] + ys;
      JoinAppend(xs[1..], ys, sep);
    }
  }

  /* ---------------- character replacement ---------------- */

  /** `s.replace(a, b)` for single characters. */
  function Replace(s: string, a: char, b: char): (r: string)
    ensures |r| == |s|
    ensures forall i :: 0 <= i < |s| ==> r[i] == (if s[i] == a then b else s[i])
  {
    if s == [] then [] else [if s[0] == a then b else s[0]] + Replace(s[1..], a, b)
  }

  /** Splitting on `c` after every character of `seps` has been turned into
      `c` is the same as splitting on all of `seps`. */
  lemma {:induction false} SplitReplaced(s: string, t: string, seps: set<char>, c: char)
    requires c in seps
    requires |t| == |s|
    requires forall i :: 0 <= i < |s| ==> (t[i] == c <==> s[i] in seps)
    requires forall i :: 0 <= i < |s| && s[i] !in seps ==> t[i] == s[i]
    ensures Split(t, c) == SplitAny(s, seps)
    decreases |s|
  {
    if !ContainsAny(s, seps) {
      assert !ContainsAny(t, {c});
      assert t == s;
    } else {
      var i := FirstIndexIn(s, seps);
      assert ContainsAny(t, {c}) by { assert t[i] == c; }
      var j := FirstIndexIn(t, {c});
      assert j == i;
      assert t[..i] == s[..i];
      SplitReplaced(s[i + 1..], t[i + 1..], seps, c);
    }
  }
}
