/**
 * Day-token normalisation of `backend/app/parser.py`: whole-word aliases,
 * compact runs such as "MWF" or "TuTh" scanned left to right with two-letter
 * forms tried before single letters, and order-preserving de-duplication.
 *
 * The scan is parameterised by its table of two-letter forms so that the
 * table as written and the evidently intended table share one definition.
 */
module Days {
  import opened Wrappers
  import opened Text
  import opened Deduplication
  import opened Dates
  import opened Weekdays

  /** Every pattern consumes at least one character, so the scan advances. */
  predicate NonEmptyPatterns(table: seq<(string, string)>) {
    forall k :: 0 <= k < |table| ==> |table[k].0| >= 1
  }

  /** (pattern, alias) pairs: a run starting with `pattern` emits the weekday of `alias`. */
  type DigraphTable = t: seq<(string, string)> | NonEmptyPatterns(t) witness []

  /** `COMPACT_DAY_SEQUENCES` as written: "tu" and "mo" name no alias. */
  const CompactDaySequences: DigraphTable :=
    [("th", "th"), ("tu", "tu"), ("su", "su"), ("sa", "sa"), ("mo", "mo")]

  /** The same table with every alias present in `WeekdayAliases`. */
  const IntendedDaySequences: DigraphTable :=
    [("th", "th"), ("tu", "tue"), ("su", "su"), ("sa", "sa"), ("mo", "mon")]

  /** Index of the first entry whose pattern starts `s`. */
  function FirstDigraph(table: DigraphTable, s: string): (r: Option<nat>)
    ensures r.Some? ==> r.value < |table| && table[r.value].0 <= s
    ensures r.Some? ==> forall j :: 0 <= j < r.value ==> !(table[j].0 <= s)
    ensures r.None? ==> forall j :: 0 <= j < |table| ==> !(table[j].0 <= s)
  {
    if |table| == 0 then None
    else if table[0].0 <= s then Some(0)
    else match FirstDigraph(table[1..], s)
      case None => None
      case Some(k) => Some(k + 1)
  }

  /** The entry at `k` is the first to match when none before it does. */
  lemma FirstDigraphIs(table: DigraphTable, s: string, k: nat)
    requires k < |table| && table[k].0 <= s
    requires forall j :: 0 <= j < k ==> !(table[j].0 <= s)
    ensures FirstDigraph(table, s) == Some(k)
  {
  }

  /** The weekday `key` names, as a list of zero or one element. */
  function AliasDays(key: string): (r: seq<Weekday>)
    ensures |r| <= 1
    ensures r == [] <==> key !in WeekdayAliases
    ensures key in WeekdayAliases ==> r == [WeekdayAliases[key]]
  {
    if key in WeekdayAliases then [WeekdayAliases[key]] else []
  }

  /**
   * `_expand_compact` for a given table: at each position the first
   * matching two-letter form is consumed whole and emits its alias's
   * weekday (if any); otherwise one character is consumed and emits its
   * weekday when it is a single-letter alias.
   */
  function ExpandWith(table: DigraphTable, s: string): (r: seq<Weekday>)
    ensures |r| <= |s|
    decreases |s|
  {
    if |s| == 0 then []
    else match FirstDigraph(table, s)
      case Some(k) => AliasDays(table[k].1) + ExpandWith(table, s[|table[k].0|..])
      case None => AliasDays([s[0]]) + ExpandWith(table, s[1..])
  }

  /** `_expand_compact` as written. */
  function ExpandCompact(s: string): (r: seq<Weekday>)
    ensures |r| <= |s|
  {
    ExpandWith(CompactDaySequences, s)
  }

  /** `_expand_compact` with the intended table. */
  function ExpandCompactIntended(s: string): (r: seq<Weekday>)
    ensures |r| <= |s|
  {
    ExpandWith(IntendedDaySequences, s)
  }

  /** The source's inner loop: the table searched in order for a pattern that starts `rest`. */
  method FindDigraph(table: DigraphTable, rest: string) returns (found: Option<nat>)
    ensures found == FirstDigraph(table, rest)
  {
    var j := 0;
    while j < |table|
      invariant 0 <= j <= |table|
      invariant forall k :: 0 <= k < j ==> !(table[k].0 <= rest)
      decreases |table| - j
    {
      if table[j].0 <= rest {
        FirstDigraphIs(table, rest, j);
        return Some(j);
      }
      j := j + 1;
    }
    return None;
  }

  /**
   * The source's loop: the unread suffix `rest` (the source's `s[i:]`)
   * shrinks by the first matching pattern, else by one character. It
   * computes `ExpandWith`.
   */
  method ExpandScan(table: DigraphTable, s: string) returns (indices: seq<Weekday>)
    ensures indices == ExpandWith(table, s)
  {
    indices := [];
    var rest := s;
    while |rest| > 0
      invariant indices + ExpandWith(table, rest) == ExpandWith(table, s)
      decreases |rest|
    {
      var found := FindDigraph(table, rest);
      match found
      case Some(k) =>
        AppendStep(indices, AliasDays(table[k].1), ExpandWith(table, rest[|table[k].0|..]));
        indices := indices + AliasDays(table[k].1);
        rest := rest[|table[k].0|..];
      case None =>
        AppendStep(indices, AliasDays([rest[0]]), ExpandWith(table, rest[1..]));
        indices := indices + AliasDays([rest[0]]);
        rest := rest[1..];
    }
    assert indices + [] == indices;
  }

  lemma AppendStep<T>(done: seq<T>, step: seq<T>, rest: seq<T>)
    ensures (done + step) + rest == done + (step + rest)
  {
  }

  /** Reading a run whose first matching entry is `k`. */
  lemma ReadDigraph(table: DigraphTable, s: string, k: nat)
    requires |s| > 0
    requires FirstDigraph(table, s) == Some(k)
    ensures ExpandWith(table, s) == AliasDays(table[k].1) + ExpandWith(table, s[|table[k].0|..])
  {
  }

  /** Reading a run that starts with no two-letter form. */
  lemma ReadSingle(table: DigraphTable, s: string)
    requires |s| > 0
    requires FirstDigraph(table, s) == None
    ensures ExpandWith(table, s) == AliasDays([s[0]]) + ExpandWith(table, s[1..])
  {
  }

  /** Text that starts with neither 't' nor 's' nor "mo" starts no two-letter form. */
  lemma NoDigraph(table: DigraphTable, s: string)
    requires table == CompactDaySequences || table == IntendedDaySequences
    requires |s| > 0 && s[0] != 't' && s[0] != 's'
    requires s[0] == 'm' ==> |s| < 2 || s[1] != 'o'
    ensures FirstDigraph(table, s) == None
  {
    forall j | 0 <= j < |table| ensures !(table[j].0 <= s) {
      assert |table[j].0| == 2;
    }
  }

  // ---------------------------------------------------------------------------
  // Properties of the scan

  lemma IntendedTableCovered()
    ensures forall k :: 0 <= k < |IntendedDaySequences| ==> IntendedDaySequences[k].1 in WeekdayAliases
  {
  }

  /** "th" is consumed as Thursday and never split into "t" and "h". */
  lemma ThIsThursday(rest: string)
    ensures ExpandCompact("th" + rest) == [3] + ExpandCompact(rest)
  {
    var s := "th" + rest;
    assert s[..2] == "th";
    FirstDigraphIs(CompactDaySequences, s, 0);
    assert s[2..] == rest;
  }

  /**
   * The "tu" and "mo" entries consume two characters and emit nothing,
   * because neither "tu" nor "mo" is an alias.
   */
  lemma TuAndMoEmitNothing(rest: string)
    ensures ExpandCompact("tu" + rest) == ExpandCompact(rest)
    ensures ExpandCompact("mo" + rest) == ExpandCompact(rest)
  {
    TuEmitsNothing(rest);
    MoEmitsNothing(rest);
  }

  lemma TuEmitsNothing(rest: string)
    ensures ExpandCompact("tu" + rest) == ExpandCompact(rest)
  {
    var tu := "tu" + rest;
    assert tu[..2] == "tu" && tu[1] == 'u';
    FirstDigraphIs(CompactDaySequences, tu, 1);
    assert tu[2..] == rest;
  }

  lemma MoEmitsNothing(rest: string)
    ensures ExpandCompact("mo" + rest) == ExpandCompact(rest)
  {
    var mo := "mo" + rest;
    assert mo[..2] == "mo" && mo[0] == 'm';
    FirstDigraphIs(CompactDaySequences, mo, 4);
    assert mo[2..] == rest;
  }

  /** No "tu" and no "mo" appear in `s`. */
  predicate NoTuMo(s: string) {
    forall i :: 0 <= i < |s| - 1 ==> !(s[i] == 't' && s[i + 1] == 'u') && !(s[i] == 'm' && s[i + 1] == 'o')
  }

  /** Tables with the same patterns choose the same entry. */
  lemma {:induction false} SamePatternsSameChoice(t1: DigraphTable, t2: DigraphTable, s: string)
    requires |t1| == |t2| && forall k :: 0 <= k < |t1| ==> t1[k].0 == t2[k].0
    ensures FirstDigraph(t1, s) == FirstDigraph(t2, s)
    decreases |t1|
  {
    if |t1| > 0 && !(t1[0].0 <= s) {
      SamePatternsSameChoice(t1[1..], t2[1..], s);
    }
  }

  /**
   * Away from the two broken pairs the table as written reads text exactly
   * as the intended table does: the loss is confined to "tu" and "mo".
   */
  lemma {:induction false} ExpandCompactAgreesAwayFromTuMo(s: string)
    requires NoTuMo(s)
    ensures ExpandCompact(s) == ExpandCompactIntended(s)
    decreases |s|
  {
    if |s| > 0 {
      var t1, t2 := CompactDaySequences, IntendedDaySequences;
      SamePatternsSameChoice(t1, t2, s);
      match FirstDigraph(t1, s)
      case Some(k) =>
        assert |t1[k].0| == 2 && s[0] == t1[k].0[0] && s[1] == t1[k].0[1];
        assert k != 1 && k != 4;
        assert t1[k].1 == t2[k].1;
        assert NoTuMo(s[2..]) by {
          forall i | 0 <= i < |s[2..]| - 1
            ensures !(s[2..][i] == 't' && s[2..][i + 1] == 'u') && !(s[2..][i] == 'm' && s[2..][i + 1] == 'o')
          {
            assert s[2..][i] == s[i + 2] && s[2..][i + 1] == s[i + 3];
          }
        }
        ExpandCompactAgreesAwayFromTuMo(s[2..]);
      case None =>
        assert NoTuMo(s[1..]) by {
          forall i | 0 <= i < |s[1..]| - 1
            ensures !(s[1..][i] == 't' && s[1..][i + 1] == 'u') && !(s[1..][i] == 'm' && s[1..][i + 1] == 'o')
          {
            assert s[1..][i] == s[i + 1] && s[1..][i + 1] == s[i + 2];
          }
        }
        ExpandCompactAgreesAwayFromTuMo(s[1..]);
    }
  }

  /**
   * A character that starts no two-letter form and is no single-letter
   * alias is skipped without error.
   */
  lemma UnmatchedCharSkipped(c: char, rest: string)
    requires c != 't' && c != 's' && c != 'm'
    requires [c] !in WeekdayAliases
    ensures ExpandCompact([c] + rest) == ExpandCompact(rest)
  {
    assert FirstDigraph(CompactDaySequences, [c] + rest) == None;
    assert ([c] + rest)[1..] == rest;
  }

  // ---------------------------------------------------------------------------
  // Compact spelling and its inverse

  /** The shortest compact spelling of each weekday. */
  function Abbrev(w: Weekday): (r: string)
    ensures 1 <= |r| <= 2
  {
    ["m", "tu", "w", "th", "f", "sa", "su"][w]
  }

  /** The days written one after the other, as in "mwf" or "tuth". */
  function CompactText(ws: seq<Weekday>): (r: string)
    ensures |ws| > 0 ==> |r| > 0 && r[0] in "mtwfs"
  {
    if |ws| == 0 then "" else Abbrev(ws[0]) + CompactText(ws[1..])
  }

  /** A single-letter abbreviation followed by another abbreviation. */
  lemma IntendedReadsLetter(c: char, rest: string)
    requires c == 'm' || c == 'w' || c == 'f'
    requires |rest| == 0 || rest[0] in "mtwfs"
    ensures ExpandCompactIntended([c] + rest) == AliasDays([c]) + ExpandCompactIntended(rest)
  {
    var s := [c] + rest;
    assert s[1..] == rest;
    assert |s| >= 2 ==> s[1] == rest[0];
    NoDigraph(IntendedDaySequences, s);
    ReadSingle(IntendedDaySequences, s);
  }

  /** One of the first four two-letter forms, followed by anything. */
  lemma IntendedReadsPair(k: nat, rest: string)
    requires k < 4
    ensures ExpandCompactIntended(IntendedDaySequences[k].0 + rest)
         == AliasDays(IntendedDaySequences[k].1) + ExpandCompactIntended(rest)
  {
    var table := IntendedDaySequences;
    var p := table[k].0;
    var s := p + rest;
    assert s[..2] == p && s[0] == p[0] && s[1] == p[1];
    assert s[2..] == rest;
    FirstDigraphIs(table, s, k);
    ReadDigraph(table, s, k);
  }

  /** With the intended table, each abbreviation is read back as its day. */
  lemma IntendedReadsAbbrev(w: Weekday, rest: string)
    requires |rest| == 0 || rest[0] in "mtwfs"
    ensures ExpandCompactIntended(Abbrev(w) + rest) == [w] + ExpandCompactIntended(rest)
  {
    var a := Abbrev(w);
    if w == 0 {
      assert a == ['m'] && AliasDays(['m']) == [0];
      IntendedReadsLetter('m', rest);
    } else if w == 1 {
      assert a == IntendedDaySequences[1].0 && AliasDays(IntendedDaySequences[1].1) == [1];
      IntendedReadsPair(1, rest);
    } else if w == 2 {
      assert a == ['w'] && AliasDays(['w']) == [2];
      IntendedReadsLetter('w', rest);
    } else if w == 3 {
      assert a == IntendedDaySequences[0].0 && AliasDays(IntendedDaySequences[0].1) == [3];
      IntendedReadsPair(0, rest);
    } else if w == 4 {
      assert a == ['f'] && AliasDays(['f']) == [4];
      IntendedReadsLetter('f', rest);
    } else if w == 5 {
      assert a == IntendedDaySequences[3].0 && AliasDays(IntendedDaySequences[3].1) == [5];
      IntendedReadsPair(3, rest);
    } else {
      assert a == IntendedDaySequences[2].0 && AliasDays(IntendedDaySequences[2].1) == [6];
      IntendedReadsPair(2, rest);
    }
  }

  /** With the intended table the scan inverts the compact spelling. */
  lemma {:induction false} IntendedRoundTrip(ws: seq<Weekday>)
    ensures ExpandCompactIntended(CompactText(ws)) == ws
  {
    if |ws| > 0 {
      IntendedRoundTrip(ws[1..]);
      IntendedReadsAbbrev(ws[0], CompactText(ws[1..]));
      assert [ws[0]] + ws[1..] == ws;
    }
  }

  /** Tuesday and Thursday are spelled "tuth". */
  lemma CompactTuTh()
    ensures CompactText([1, 3]) == "tuth"
  {
    assert [1, 3][1..] == [3];
    assert CompactText([3]) == "th" + CompactText([]);
  }

  /** As written, the spelling of Tuesday and Thursday reads back as Thursday only. */
  lemma TuThLosesTuesday()
    ensures ExpandCompact("tuth") == [3]
    ensures ExpandCompactIntended("tuth") == [1, 3]
  {
    assert "tuth" == "tu" + "th";
    assert "th" == "th" + "";
    TuAndMoEmitNothing("th");
    ThIsThursday("");
    CompactTuTh();
    IntendedRoundTrip([1, 3]);
  }

  // ---------------------------------------------------------------------------
  // normalize_days

  /** The days one token contributes: its whole-word alias, else its compact reading. */
  function TokenDaysWith(table: DigraphTable, token: string): (r: seq<Weekday>)
    ensures Strip(token) == "" ==> r == []
    ensures Lower(Strip(token)) in WeekdayAliases ==> r == [WeekdayAliases[Lower(Strip(token))]]
    ensures Lower(Strip(token)) != "" && Lower(Strip(token)) !in WeekdayAliases ==>
      r == ExpandWith(table, Lower(Strip(token)))
  {
    var t := Lower(Strip(token));
    if t == "" then []
    else if t in WeekdayAliases then [WeekdayAliases[t]]
    else ExpandWith(table, t)
  }

  /** The days of all tokens in order, repeats included. */
  function AllTokenDays(table: DigraphTable, tokens: seq<string>): (r: seq<Weekday>)
    ensures forall d :: d in r <==> exists k :: 0 <= k < |tokens| && d in TokenDaysWith(table, tokens[k])
  {
    if |tokens| == 0 then []
    else
      var rest := AllTokenDays(table, tokens[1..]);
      assert forall k :: 0 < k < |tokens| ==> tokens[k] == tokens[1..][k - 1];
      TokenDaysWith(table, tokens[0]) + rest
  }

  /**
   * `normalize_days` for a given table: the distinct weekdays the tokens
   * denote, each at its first occurrence.
   */
  function NormalizeDaysWith(table: DigraphTable, tokens: seq<string>): (r: seq<Weekday>)
    ensures Distinct(r)
    ensures forall d :: d in r <==> exists k :: 0 <= k < |tokens| && d in TokenDaysWith(table, tokens[k])
  {
    var all := AllTokenDays(table, tokens);
    var r := Dedup(all);
    assert forall d :: d in r <==> d in all;
    r
  }

  /** `normalize_days` as written. */
  function NormalizeDays(tokens: seq<string>): (r: seq<Weekday>)
    ensures Distinct(r) && |r| <= 7
    ensures forall d :: d in r <==> exists k :: 0 <= k < |tokens| && d in TokenDaysWith(CompactDaySequences, tokens[k])
  {
    var r := NormalizeDaysWith(CompactDaySequences, tokens);
    DistinctWeekdaysBound(r);
    r
  }

  /** `normalize_days` with the intended table. */
  function NormalizeDaysIntended(tokens: seq<string>): (r: seq<Weekday>)
    ensures Distinct(r)
    ensures forall d :: d in r <==> exists k :: 0 <= k < |tokens| && d in TokenDaysWith(IntendedDaySequences, tokens[k])
  {
    NormalizeDaysWith(IntendedDaySequences, tokens)
  }

  /** At most seven distinct weekdays exist. */
  lemma DistinctWeekdaysBound(ws: seq<Weekday>)
    requires Distinct(ws)
    ensures |ws| <= 7
  {
    var s := set k | 0 <= k < |ws| :: ws[k];
    SetOfWeekdaysBound(s);
    DistinctCardinality(ws);
  }

  lemma SetOfWeekdaysBound(s: set<Weekday>)
    ensures |s| <= 7
  {
    var all: set<Weekday> := {0, 1, 2, 3, 4, 5, 6};
    assert s <= all;
    SubsetCardinality(s, all);
  }

  lemma SubsetCardinality<T>(a: set<T>, b: set<T>)
    requires a <= b
    ensures |a| <= |b|
  {
    if a != {} {
      var x :| x in a;
      SubsetCardinality(a - {x}, b - {x});
    }
  }

  /** A list without repeats has as many elements as its set. */
  lemma {:induction false} DistinctCardinality<T>(ws: seq<T>)
    requires Distinct(ws)
    ensures |set k | 0 <= k < |ws| :: ws[k]| == |ws|
  {
    if |ws| > 0 {
      var front := ws[..|ws| - 1];
      DistinctCardinality(front);
      var sf := set k | 0 <= k < |front| :: front[k];
      var s := set k | 0 <= k < |ws| :: ws[k];
      assert s == sf + {ws[|ws| - 1]};
      assert ws[|ws| - 1] !in sf;
    }
  }

  /** A token that is a whole alias names its one weekday and is never expanded letter by letter. */
  lemma WholeAliasFirst(token: string)
    requires Lower(Strip(token)) in WeekdayAliases
    ensures NormalizeDays([token]) == [WeekdayAliases[Lower(Strip(token))]]
  {
    var w := WeekdayAliases[Lower(Strip(token))];
    SingleTokenDays(CompactDaySequences, token, [w]);
  }

  /** One token's normalised days are its own days once repeats are dropped. */
  lemma SingleTokenDays(table: DigraphTable, token: string, ws: seq<Weekday>)
    requires TokenDaysWith(table, token) == ws && Distinct(ws)
    ensures NormalizeDaysWith(table, [token]) == ws
  {
    assert [token][1..] == [];
    assert AllTokenDays(table, [token]) == ws + [];
    assert ws + [] == ws;
    DedupOfDistinct(ws);
  }

  /** "Tue" is Tuesday as a whole word, though its letters alone give nothing. */
  lemma TueIsWholeAlias()
    ensures NormalizeDays(["Tue"]) == [1]
    ensures ExpandCompact("tue") == []
  {
    TueToken();
    WholeAliasFirst("Tue");
    TueLetters();
  }

  lemma TueToken()
    ensures Lower(Strip("Tue")) == "tue" && "tue" in WeekdayAliases && WeekdayAliases["tue"] == 1
  {
    StripOfTrimmed("Tue");
  }

  lemma TueLetters()
    ensures ExpandCompact("tue") == []
  {
    assert "tue" == "tu" + "e";
    TuEmitsNothing("e");
    LetterENoDay();
  }

  lemma LetterENoDay()
    ensures ExpandCompact("e") == []
  {
    UnmatchedCharSkipped('e', "");
    assert ['e'] + "" == "e";
  }

  /** Days are listed in the order in which the tokens first mention them. */
  lemma NormalizeDaysOrder(tokens: seq<string>)
    ensures var r := NormalizeDays(tokens); var all := AllTokenDays(CompactDaySequences, tokens);
      forall i, j :: 0 <= i < j < |r| ==> FirstIndex(all, r[i]) < FirstIndex(all, r[j])
  {
    var all := AllTokenDays(CompactDaySequences, tokens);
    assert NormalizeDays(tokens) == Dedup(all);
    DedupOrder(all);
  }
}
