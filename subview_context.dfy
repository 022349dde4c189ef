/** The context a form view sends with a sub-view request for an x2many field.

    Two parts are modelled:
    - the field's own context string is scraped for `'<letters>_view_ref':
      '<value>'` pairs with the global regular expression
      `/'([a-z]*_view_ref)' *: *'(.*?)'/g` and an `exec` loop, later matches
      overwriting earlier ones;
    - the form's own context loses every key that contains `_view_ref` and
      gains `base_model_name`, the model of the main record.
 */
module SubviewContext {
  import opened JsValues

  const ViewRefSuffix: string := "_view_ref"
  const BaseModelName: string := "base_model_name"

  predicate IsLower(c: char) {
    'a' <= c <= 'z'
  }

  /** The characters that `.` does not match in a JavaScript regular
      expression. */
  predicate IsLineTerminator(c: char) {
    c == '\n' || c == '\r' || c == '\U{2028}' || c == '\U{2029}'
  }

  /** A key the regular expression can capture: lower-case letters, then
      `_view_ref`. */
  predicate IsViewRefKey(key: string) {
    && |key| >= |ViewRefSuffix|
    && key[|key| - |ViewRefSuffix|..] == ViewRefSuffix
    && forall k :: 0 <= k < |key| - |ViewRefSuffix| ==> IsLower(key[k])
  }

  /** A value the lazy group `(.*?)` followed by a quote can capture. */
  predicate IsRefValue(value: string) {
    forall k :: 0 <= k < |value| ==> value[k] != '\'' && !IsLineTerminator(value[k])
  }

  /** Every entry of a scraped context has the shape the regular expression
      can produce. */
  predicate WellFormedRefs(context: map<string, string>) {
    forall key :: key in context ==> IsViewRefKey(key) && IsRefValue(context[key])
  }

  /** One match of the regular expression: where it starts, its two groups,
      and where it ends (the `lastIndex` that `exec` leaves behind). */
  datatype Match = Match(start: nat, key: string, value: string, end: nat)

  /** The regular expression, stated on positions: it matches at `p` with the
      letters in `[p + 1, b)`, `_view_ref'` at `b`, spaces in `[b + 10, c)`,
      a colon at `c`, spaces in `(c, d)`, the opening quote of the value at
      `d` and its closing quote at `q`. */
  ghost predicate IsMatch(s: string, p: nat, b: nat, c: nat, d: nat, q: nat) {
    && p < b <= c && b + 10 <= c < d < q < |s|
    && s[p] == '\''
    && (forall k :: p + 1 <= k < b ==> IsLower(s[k]))
    && s[b..b + 10] == ViewRefSuffix + "'"
    && (forall k :: b + 10 <= k < c ==> s[k] == ' ')
    && s[c] == ':'
    && (forall k :: c + 1 <= k < d ==> s[k] == ' ')
    && s[d] == '\''
    && IsRefValue(s[d + 1..q])
    && s[q] == '\''
  }

  /** The end of the run of lower-case letters that starts at `i`. */
  function LowerEnd(s: string, i: nat): (j: nat)
    requires i <= |s|
    ensures i <= j <= |s|
    decreases |s| - i
  {
    if i < |s| && IsLower(s[i]) then LowerEnd(s, i + 1) else i
  }

  /** The end of the run of spaces that starts at `i`. */
  function SpaceEnd(s: string, i: nat): (j: nat)
    requires i <= |s|
    ensures i <= j <= |s|
    decreases |s| - i
  {
    if i < |s| && s[i] == ' ' then SpaceEnd(s, i + 1) else i
  }

  /** The first quote at or after `i`, unless a line terminator comes
      first: where the lazy group `(.*?)'` stops. */
  function ClosingQuote(s: string, i: nat): (r: Option<nat>)
    requires i <= |s|
    ensures r.Some? ==> i <= r.value < |s|
    decreases |s| - i
  {
    if i == |s| || IsLineTerminator(s[i]) then None
    else if s[i] == '\'' then Some(i)
    else ClosingQuote(s, i + 1)
  }

  /** The match of the regular expression that starts exactly at `p`, if
      any. */
  function MatchAt(s: string, p: nat): (r: Option<Match>)
    requires p <= |s|
    ensures r.Some? ==> r.value.start == p && p < r.value.end <= |s|
  {
    if p == |s| || s[p] != '\'' then None
    else
      var b := LowerEnd(s, p + 1);
      if b + 10 > |s| || s[b..b + 10] != ViewRefSuffix + "'" then None
      else
        var c := SpaceEnd(s, b + 10);
        if c == |s| || s[c] != ':' then None
        else
          var d := SpaceEnd(s, c + 1);
          if d == |s| || s[d] != '\'' then None
          else
            match ClosingQuote(s, d + 1)
            case None => None
            case Some(q) =>
              Some(Match(p, s[p + 1..b + 9], s[d + 1..q], q + 1))
  }

  /** What `exec` finds when the search starts at `from`: the match with the
      leftmost start at or after `from`. */
  function NextMatch(s: string, from: nat): (r: Option<Match>)
    requires from <= |s|
    ensures r.Some? ==> from <= r.value.start < r.value.end <= |s|
    ensures r.Some? ==> MatchAt(s, r.value.start) == r
    ensures r.Some? ==> forall q :: from <= q < r.value.start ==> MatchAt(s, q).None?
    ensures r.None? ==> forall q :: from <= q <= |s| ==> MatchAt(s, q).None?
    decreases |s| - from
  {
    var m := MatchAt(s, from);
    if m.Some? || from == |s| then m else NextMatch(s, from + 1)
  }

  /** The context the `exec` loop builds from position `from` on, starting
      from `context`. */
  function ScrapeFrom(s: string, from: nat, context: map<string, string>): map<string, string>
    requires from <= |s|
    decreases |s| - from
  {
    match NextMatch(s, from)
    case None => context
    case Some(m) => ScrapeFrom(s, m.end, context[m.key := m.value])
  }

  /** The context scraped from a field's raw context string. */
  function ViewRefContext(s: string): map<string, string> {
    ScrapeFrom(s, 0, map[])
  }

  /** The `while (matches = regex.exec(attrs.context))` loop: each match
      stores its value under its key; the loop ends when `exec` finds no
      further match. */
  method ScrapeViewRefs(text: string) returns (context: map<string, string>)
    ensures context == ViewRefContext(text)
    ensures WellFormedRefs(context)
  {
    context := map[];
    var lastIndex := 0;
    var matches := NextMatch(text, lastIndex);
    while matches.Some?
      invariant lastIndex <= |text|
      invariant matches == NextMatch(text, lastIndex)
      invariant ScrapeFrom(text, lastIndex, context) == ViewRefContext(text)
      decreases |text| - lastIndex
    {
      context := context[matches.value.key := matches.value.value];
      lastIndex := matches.value.end;
      matches := NextMatch(text, lastIndex);
    }
    ScrapedRefsWellFormed(text);
  }

  /** `LowerEnd` stops at the first character that is not a lower-case
      letter. */
  lemma {:induction false} LowerEndSpec(s: string, i: nat)
    requires i <= |s|
    ensures forall k :: i <= k < LowerEnd(s, i) ==> IsLower(s[k])
    ensures LowerEnd(s, i) == |s| || !IsLower(s[LowerEnd(s, i)])
    decreases |s| - i
  {
    if i < |s| && IsLower(s[i]) {
      LowerEndSpec(s, i + 1);
    }
  }

  /** `SpaceEnd` stops at the first character that is not a space. */
  lemma {:induction false} SpaceEndSpec(s: string, i: nat)
    requires i <= |s|
    ensures forall k :: i <= k < SpaceEnd(s, i) ==> s[k] == ' '
    ensures SpaceEnd(s, i) == |s| || s[SpaceEnd(s, i)] != ' '
    decreases |s| - i
  {
    if i < |s| && s[i] == ' ' {
      SpaceEndSpec(s, i + 1);
    }
  }

  /** `ClosingQuote` finds a quote preceded only by characters `.` matches,
      and finds none exactly when no such quote exists. */
  lemma {:induction false} ClosingQuoteSpec(s: string, i: nat)
    requires i <= |s|
    ensures ClosingQuote(s, i).Some? ==>
      s[ClosingQuote(s, i).value] == '\'' && IsRefValue(s[i..ClosingQuote(s, i).value])
    ensures ClosingQuote(s, i).None? ==> forall j :: i <= j < |s| && s[j] == '\'' ==> !IsRefValue(s[i..j])
    decreases |s| - i
  {
    if i < |s| && !IsLineTerminator(s[i]) && s[i] != '\'' {
      ClosingQuoteSpec(s, i + 1);
      var r := ClosingQuote(s, i + 1);
      if r.Some? {
        assert s[i..r.value] == [s[i]] + s[i + 1..r.value];
      } else {
        forall j | i <= j < |s| && s[j] == '\''
          ensures !IsRefValue(s[i..j])
        {
          assert j != i;
          assert s[i + 1..j] == s[i..j][1..];
        }
      }
    } else if i < |s| && IsLineTerminator(s[i]) {
      forall j | i <= j < |s| && s[j] == '\''
        ensures !IsRefValue(s[i..j])
      {
        assert j != i;
        assert s[i..j][0] == s[i];
      }
    }
  }

  lemma {:induction false} LowerEndIs(s: string, i: nat, j: nat)
    requires i <= j <= |s|
    requires forall k :: i <= k < j ==> IsLower(s[k])
    requires j == |s| || !IsLower(s[j])
    ensures LowerEnd(s, i) == j
    decreases j - i
  {
    if i < j {
      LowerEndIs(s, i + 1, j);
    }
  }

  lemma {:induction false} SpaceEndIs(s: string, i: nat, j: nat)
    requires i <= j <= |s|
    requires forall k :: i <= k < j ==> s[k] == ' '
    requires j == |s| || s[j] != ' '
    ensures SpaceEnd(s, i) == j
    decreases j - i
  {
    if i < j {
      SpaceEndIs(s, i + 1, j);
    }
  }

  lemma {:induction false} ClosingQuoteIs(s: string, i: nat, q: nat)
    requires i <= q < |s|
    requires IsRefValue(s[i..q]) && s[q] == '\''
    ensures ClosingQuote(s, i) == Some(q)
    decreases q - i
  {
    if i < q {
      assert s[i] == s[i..q][0];
      assert s[i + 1..q] == s[i..q][1..];
      ClosingQuoteIs(s, i + 1, q);
    }
  }

  /** Completeness and uniqueness: wherever the regular expression matches,
      `MatchAt` finds that match, with the groups the regular expression
      captures. */
  lemma MatchAtComplete(s: string, p: nat, b: nat, c: nat, d: nat, q: nat)
    requires IsMatch(s, p, b, c, d, q)
    ensures MatchAt(s, p) == Some(Match(p, s[p + 1..b + 9], s[d + 1..q], q + 1))
  {
    assert s[b] == (ViewRefSuffix + "'")[0];
    LowerEndIs(s, p + 1, b);
    SpaceEndIs(s, b + 10, c);
    SpaceEndIs(s, c + 1, d);
    ClosingQuoteIs(s, d + 1, q);
    MatchAtFrom(s, p, b, c, d, q);
  }

  /** `MatchAt` once the end of each of its runs is known. */
  lemma MatchAtFrom(s: string, p: nat, b: nat, c: nat, d: nat, q: nat)
    requires p < |s| && s[p] == '\''
    requires LowerEnd(s, p + 1) == b && b + 10 <= |s| && s[b..b + 10] == ViewRefSuffix + "'"
    requires SpaceEnd(s, b + 10) == c && c < |s| && s[c] == ':'
    requires SpaceEnd(s, c + 1) == d && d < |s| && s[d] == '\''
    requires ClosingQuote(s, d + 1) == Some(q)
    ensures MatchAt(s, p) == Some(Match(p, s[p + 1..b + 9], s[d + 1..q], q + 1))
  {
  }

  /** What `MatchAt` checked when it reports a match. */
  lemma MatchAtParts(s: string, p: nat)
    requires p <= |s| && MatchAt(s, p).Some?
    ensures p < |s| && s[p] == '\''
    ensures var b := LowerEnd(s, p + 1);
            && b + 10 <= |s| && s[b..b + 10] == ViewRefSuffix + "'"
            && var c := SpaceEnd(s, b + 10);
            && c < |s| && s[c] == ':'
            && var d := SpaceEnd(s, c + 1);
            && d < |s| && s[d] == '\''
            && ClosingQuote(s, d + 1).Some?
            && MatchAt(s, p) == Some(Match(p, s[p + 1..b + 9], s[d + 1..ClosingQuote(s, d + 1).value], ClosingQuote(s, d + 1).value + 1))
  {
  }

  /** The runs `MatchAt` scans make up a match of the regular expression. */
  lemma IsMatchOfRuns(s: string, p: nat, b: nat, c: nat, d: nat, q: nat)
    requires p < |s| && s[p] == '\''
    requires b == LowerEnd(s, p + 1) && b + 10 <= |s| && s[b..b + 10] == ViewRefSuffix + "'"
    requires c == SpaceEnd(s, b + 10) && c < |s| && s[c] == ':'
    requires d == SpaceEnd(s, c + 1) && d < |s| && s[d] == '\''
    requires ClosingQuote(s, d + 1) == Some(q)
    ensures IsMatch(s, p, b, c, d, q)
  {
    LowerEndSpec(s, p + 1);
    SpaceEndSpec(s, b + 10);
    SpaceEndSpec(s, c + 1);
    ClosingQuoteSpec(s, d + 1);
  }

  /** Soundness: every match `MatchAt` reports is a match of the regular
      expression. */
  lemma MatchAtSound(s: string, p: nat)
    requires p <= |s| && MatchAt(s, p).Some?
    ensures exists b: nat, c: nat, d: nat, q: nat :: IsMatch(s, p, b, c, d, q) && MatchAt(s, p) == Some(Match(p, s[p + 1..b + 9], s[d + 1..q], q + 1))
  {
    MatchAtParts(s, p);
    var b := LowerEnd(s, p + 1);
    var c := SpaceEnd(s, b + 10);
    var d := SpaceEnd(s, c + 1);
    var q := ClosingQuote(s, d + 1).value;
    IsMatchOfRuns(s, p, b, c, d, q);
    assert IsMatch(s, p, b, c, d, q) && MatchAt(s, p) == Some(Match(p, s[p + 1..b + 9], s[d + 1..q], q + 1));
  }

  /** The groups of a match of the regular expression have the shapes it
      allows. */
  lemma IsMatchShape(s: string, p: nat, b: nat, c: nat, d: nat, q: nat)
    requires IsMatch(s, p, b, c, d, q)
    ensures IsViewRefKey(s[p + 1..b + 9]) && IsRefValue(s[d + 1..q])
  {
    var key := s[p + 1..b + 9];
    assert key[|key| - 9..] == s[b..b + 9];
    assert s[b..b + 9] == (ViewRefSuffix + "'")[..9];
    assert forall k :: 0 <= k < |key| - 9 ==> key[k] == s[p + 1 + k];
  }

  /** The groups of every match have the shapes the regular expression
      allows. */
  lemma MatchAtShape(s: string, p: nat)
    requires p <= |s| && MatchAt(s, p).Some?
    ensures IsViewRefKey(MatchAt(s, p).value.key) && IsRefValue(MatchAt(s, p).value.value)
  {
    MatchAtParts(s, p);
    var b := LowerEnd(s, p + 1);
    var c := SpaceEnd(s, b + 10);
    var d := SpaceEnd(s, c + 1);
    var q := ClosingQuote(s, d + 1).value;
    IsMatchOfRuns(s, p, b, c, d, q);
    IsMatchShape(s, p, b, c, d, q);
  }

  /** The groups of the match `exec` finds have the shapes the regular
      expression allows. */
  lemma NextMatchShape(s: string, from: nat)
    requires from <= |s| && NextMatch(s, from).Some?
    ensures IsViewRefKey(NextMatch(s, from).value.key) && IsRefValue(NextMatch(s, from).value.value)
  {
    MatchAtShape(s, NextMatch(s, from).value.start);
  }

  lemma {:induction false} ScrapeFromWellFormed(s: string, from: nat, context: map<string, string>)
    requires from <= |s|
    requires WellFormedRefs(context)
    ensures WellFormedRefs(ScrapeFrom(s, from, context))
    decreases |s| - from
  {
    match NextMatch(s, from)
    case None =>
    case Some(m) =>
      NextMatchShape(s, from);
      ScrapeFromWellFormed(s, m.end, context[m.key := m.value]);
  }

  /** Every key scraped from a context string is lower-case letters followed
      by `_view_ref`, and every value holds no quote and no line terminator
      (that a value ends at the first closing quote is `ClosingQuoteSpec`). */
  lemma ScrapedRefsWellFormed(s: string)
    ensures WellFormedRefs(ViewRefContext(s))
  {
    ScrapeFromWellFormed(s, 0, map[]);
  }

  /** The loop only ever adds to the context it started with, and what it
      adds overrides what was there. */
  lemma {:induction false} ScrapeOverrides(s: string, from: nat, context: map<string, string>)
    requires from <= |s|
    ensures ScrapeFrom(s, from, context) == context + ScrapeFrom(s, from, map[])
    decreases |s| - from
  {
    match NextMatch(s, from)
    case None =>
    case Some(m) =>
      var one := map[m.key := m.value];
      var rest := ScrapeFrom(s, m.end, map[]);
      calc {
        ScrapeFrom(s, from, context);
        ScrapeFrom(s, m.end, context[m.key := m.value]);
        { ScrapeOverrides(s, m.end, context[m.key := m.value]); }
        context[m.key := m.value] + rest;
        { assert context[m.key := m.value] == context + one; }
        (context + one) + rest;
        { MapUnionAssoc(context, one, rest); }
        context + (one + rest);
        { ScrapeOverrides(s, m.end, one); }
        context + ScrapeFrom(s, m.end, one);
        context + ScrapeFrom(s, from, map[]);
      }
  }

  lemma MapUnionAssoc<K, V>(a: map<K, V>, b: map<K, V>, c: map<K, V>)
    ensures (a + b) + c == a + (b + c)
  {
  }

  /** A later occurrence of a key overwrites an earlier one: the value of the
      next match survives exactly when no later match has the same key. */
  lemma LaterOccurrenceWins(s: string, from: nat, context: map<string, string>)
    requires from <= |s| && NextMatch(s, from).Some?
    ensures var m := NextMatch(s, from).value;
            var later := ScrapeFrom(s, m.end, map[]);
            && m.key in ScrapeFrom(s, from, context)
            && ScrapeFrom(s, from, context)[m.key] == if m.key in later then later[m.key] else m.value
  {
    var m := NextMatch(s, from).value;
    ScrapeOverrides(s, m.end, context[m.key := m.value]);
  }

  /** The context string `{'<letters>_view_ref': '<value>'}`. */
  function SinglePair(letters: string, value: string): string {
    "{'" + letters + "_view_ref': '" + value + "'}"
  }

  lemma SinglePairLayout(letters: string, value: string)
    ensures var s, b, q := SinglePair(letters, value), 2 + |letters|, 15 + |letters| + |value|;
      && |s| == q + 2
      && s[0] == '{' && s[1] == '\'' && s[q] == '\'' && s[q + 1] == '}'
      && s[2..b] == letters && s[b..b + 10] == ViewRefSuffix + "'"
      && s[b + 10] == ':' && s[b + 11] == ' ' && s[b + 12] == '\''
      && s[b + 13..q] == value
      && s[2..b + 9] == letters + ViewRefSuffix
  {
    var sep := "_view_ref': '";
    var s, b, q := SinglePair(letters, value), 2 + |letters|, 15 + |letters| + |value|;
    assert s == "{'" + letters + sep + value + "'}";
    assert s[b..b + 13] == sep;
    assert s[b..b + 10] == sep[..10];
    assert s[b + 10] == sep[10] && s[b + 11] == sep[11] && s[b + 12] == sep[12];
    assert s[b..b + 9] == ViewRefSuffix;
  }

  lemma SinglePairMatches(letters: string, value: string)
    requires forall k :: 0 <= k < |letters| ==> IsLower(letters[k])
    requires IsRefValue(value)
    ensures var s, q := SinglePair(letters, value), 15 + |letters| + |value|;
      NextMatch(s, 0) == Some(Match(1, letters + ViewRefSuffix, value, q + 1))
  {
    var s, b, q := SinglePair(letters, value), 2 + |letters|, 15 + |letters| + |value|;
    SinglePairLayout(letters, value);
    assert IsMatch(s, 1, b, b + 10, b + 12, q);
    MatchAtComplete(s, 1, b, b + 10, b + 12, q);
    assert MatchAt(s, 0).None? by {
      assert s[0] != '\'';
    }
    assert NextMatch(s, 1) == MatchAt(s, 1);
  }

  /** A context string holding a single pair, such as
      `{'product_view_ref': 'module.view_id'}`, scrapes to exactly that
      pair. */
  lemma SinglePairScraped(letters: string, value: string)
    requires forall k :: 0 <= k < |letters| ==> IsLower(letters[k])
    requires IsRefValue(value)
    ensures ViewRefContext(SinglePair(letters, value)) == map[letters + ViewRefSuffix := value]
  {
    var s, q := SinglePair(letters, value), 15 + |letters| + |value|;
    SinglePairMatches(letters, value);
    SinglePairLayout(letters, value);
    assert MatchAt(s, q + 1).None?;
    assert NextMatch(s, q + 1).None?;
    assert ScrapeFrom(s, q + 1, map[letters + ViewRefSuffix := value]) == map[letters + ViewRefSuffix := value];
    assert ScrapeFrom(s, 0, map[]) == ScrapeFrom(s, q + 1, map[letters + ViewRefSuffix := value]);
  }

  /** A key with an underscore before `_view_ref` is never scraped. */
  lemma UnderscoredKeyNotScraped(s: string)
    ensures "sale_order_view_ref" !in ViewRefContext(s)
  {
    ScrapedRefsWellFormed(s);
    assert !IsLower("sale_order_view_ref"[4]);
  }

  /** `key.indexOf('_view_ref') !== -1`. */
  predicate HasViewRef(key: string) {
    exists i :: 0 <= i && i + |ViewRefSuffix| <= |key| && ViewRefAt(key, i)
  }

  predicate ViewRefAt(key: string, i: nat)
    requires i + |ViewRefSuffix| <= |key|
  {
    key[i..i + |ViewRefSuffix|] == ViewRefSuffix
  }

  /** The form's own context as the sub-view request receives it: without the
      keys that mention `_view_ref`, and with `base_model_name` set to the
      model of the main record. */
  function RefineContext(parent: map<string, Value>, modelName: Value): (r: map<string, Value>)
    ensures forall key :: key in r <==> key == BaseModelName || (key in parent && !HasViewRef(key))
    ensures forall key :: key in r ==> !HasViewRef(key)
    ensures r[BaseModelName] == modelName
    ensures forall key :: key in parent && !HasViewRef(key) && key != BaseModelName ==> r[key] == parent[key]
  {
    assert !HasViewRef(BaseModelName) by {
      forall i | 0 <= i && i + 9 <= |BaseModelName|
        ensures !ViewRefAt(BaseModelName, i)
      {
        assert BaseModelName[i..i + 9][1] == BaseModelName[i + 1] != 'v';
      }
    }
    (map key | key in parent && !HasViewRef(key) :: parent[key])[BaseModelName := modelName]
  }

  /** No `_view_ref` key the field's own context string names can be
      overridden by one inherited from the form's context. */
  lemma ScrapedKeysNotInherited(text: string, parent: map<string, Value>, modelName: Value)
    ensures forall key :: key in ViewRefContext(text) ==> key !in RefineContext(parent, modelName)
  {
    ScrapedRefsWellFormed(text);
    forall key | key in ViewRefContext(text)
      ensures HasViewRef(key)
    {
      var i := |key| - |ViewRefSuffix|;
      assert ViewRefAt(key, i);
    }
  }
}
