/**
  The alert thresholds setting: a comma-separated list of day counts,
  parsed as `sorted(set(int(x.strip()) for x in s.split(',') if x.strip()))`,
  falling back to [15, 30, 60] when any token is not an integer.

  Note the case of a blank setting: no token survives, nothing raises, and
  the result is the empty list, not the fallback.
*/
module Thresholds {
  import opened Wrappers
  import opened Text

  const DefaultThresholds: seq<int> := [15, 30, 60]

  predicate StrictlyAscending(s: seq<int>) {
    forall i, j :: 0 <= i < j < |s| ==> s[i] < s[j]
  }

  /** Inserts x into an ascending list without duplicating it. */
  function Insert(s: seq<int>, x: int): (r: seq<int>)
    requires StrictlyAscending(s)
    ensures StrictlyAscending(r)
    ensures forall v :: v in r <==> v in s || v == x
  {
    if s == [] then [x]
    else if x < s[0] then [x] + s
    else if x == s[0] then s
    else
      var rest := Insert(s[1..], x);
      assert forall j :: 0 <= j < |rest| ==> s[0] < rest[j] by {
        forall j | 0 <= j < |rest| ensures s[0] < rest[j] {
          assert rest[j] in rest;
          if rest[j] != x {
            var i :| 0 <= i < |s[1..]| && s[1..][i] == rest[j];
            assert s[i + 1] == rest[j];
          }
        }
      }
      [s[0]] + rest
  }

  /** `sorted(set(xs))`. */
  function SortedDistinct(xs: seq<int>): (r: seq<int>)
    ensures StrictlyAscending(r)
    ensures forall v :: v in r <==> v in xs
  {
    if xs == [] then [] else Insert(SortedDistinct(xs[..|xs| - 1]), xs[|xs| - 1])
  }

  lemma FirstIsLeast(s: seq<int>, v: int)
    requires StrictlyAscending(s) && v in s
    ensures s[0] <= v
  {
    var i :| 0 <= i < |s| && s[i] == v;
  }

  /** Two ascending lists with the same elements are the same list. */
  lemma {:induction false} AscendingUnique(a: seq<int>, b: seq<int>)
    requires StrictlyAscending(a) && StrictlyAscending(b)
    requires forall v :: v in a <==> v in b
    ensures a == b
  {
    if a != [] {
      assert a[0] in a;
    }
    if b != [] {
      assert b[0] in b;
    }
    if a != [] && b != [] {
      FirstIsLeast(a, b[0]);
      FirstIsLeast(b, a[0]);
      forall v ensures v in a[1..] <==> v in b[1..] {
        if v in a[1..] {
          var i :| 1 <= i < |a| && a[i] == v;
          assert v in b && v != b[0];
        }
        if v in b[1..] {
          var i :| 1 <= i < |b| && b[i] == v;
          assert v in a && v != a[0];
        }
      }
      AscendingUnique(a[1..], b[1..]);
    }
  }

  /** Sorting a list that is already ascending and duplicate-free changes nothing. */
  lemma SortedDistinctOfAscending(xs: seq<int>)
    requires StrictlyAscending(xs)
    ensures SortedDistinct(xs) == xs
  {
    AscendingUnique(SortedDistinct(xs), xs);
  }

  /** `[int(x) for x in tokens]`, or None when some `int(x)` raises. */
  function ParseAll(tokens: seq<string>): (r: Option<seq<int>>)
    ensures r.Some? <==> forall k :: 0 <= k < |tokens| ==> ParseInt(tokens[k]).Some?
    ensures r.Some? ==> |r.value| == |tokens|
    ensures r.Some? ==> forall k :: 0 <= k < |tokens| ==> ParseInt(tokens[k]) == Some(r.value[k])
  {
    if tokens == [] then Some([])
    else match ParseInt(tokens[0])
      case None => None
      case Some(v) =>
        match ParseAll(tokens[1..])
        case None => None
        case Some(vs) => Some([v] + vs)
  }

  function SettingTokens(setting: string): seq<string> {
    CleanTokens(SplitCommas(setting))
  }

  /** The thresholds a run uses for the stored setting: always ascending, never repeated. */
  function ParseThresholds(setting: string): (r: seq<int>)
    ensures StrictlyAscending(r)
  {
    match ParseAll(SettingTokens(setting))
    case None => DefaultThresholds
    case Some(values) => SortedDistinct(values)
  }

  /**
    If every non-blank token is an integer, the thresholds are exactly the
    values of the tokens; otherwise they are the default [15, 30, 60].
  */
  lemma ParseThresholdsSpec(setting: string)
    ensures var tokens := SettingTokens(setting);
      if forall k :: 0 <= k < |tokens| ==> ParseInt(tokens[k]).Some? then
        forall v :: v in ParseThresholds(setting) <==>
          exists k :: 0 <= k < |tokens| && ParseInt(tokens[k]) == Some(v)
      else
        ParseThresholds(setting) == DefaultThresholds
  {
    var tokens := SettingTokens(setting);
    var parsed := ParseAll(tokens);
    if parsed.Some? {
      forall v ensures v in ParseThresholds(setting) <==>
        exists k :: 0 <= k < |tokens| && ParseInt(tokens[k]) == Some(v)
      {
        if v in parsed.value {
          var k :| 0 <= k < |parsed.value| && parsed.value[k] == v;
          assert ParseInt(tokens[k]) == Some(v);
        }
        if exists k :: 0 <= k < |tokens| && ParseInt(tokens[k]) == Some(v) {
          var k :| 0 <= k < |tokens| && ParseInt(tokens[k]) == Some(v);
          assert parsed.value[k] == v;
        }
      }
    }
  }

  /**
    A setting made only of commas and whitespace has no tokens at all: the
    source then returns no threshold (not the default), and the run finds
    nothing to send.
  */
  lemma BlankSettingHasNoThresholds(setting: string)
    requires forall k :: 0 <= k < |setting| ==> setting[k] == ',' || IsSpace(setting[k])
    ensures SettingTokens(setting) == []
    ensures ParseThresholds(setting) == []
  {
    NoTokensIffBlank(setting);
  }

  function ShowAll(values: seq<int>): (r: seq<string>)
    ensures |r| == |values|
  {
    if values == [] then [] else [Show(values[0])] + ShowAll(values[1..])
  }

  lemma {:induction false} ShowAllAt(values: seq<int>)
    ensures forall k :: 0 <= k < |values| ==> ShowAll(values)[k] == Show(values[k])
  {
    if values != [] {
      ShowAllAt(values[1..]);
    }
  }

  lemma {:induction false} ShowAllParse(values: seq<int>)
    ensures ParseAll(ShowAll(values)) == Some(values)
  {
    if values != [] {
      ShowAllParse(values[1..]);
      ParseShow(values[0]);
      assert ShowAll(values)[1..] == ShowAll(values[1..]);
      assert [values[0]] + values[1..] == values;
    }
  }

  /**
    A setting written as `','.join(str(v) for v in values)` reads back as
    the sorted, de-duplicated values.
  */
  lemma ParseWrittenSetting(values: seq<int>)
    ensures ParseThresholds(Join(ShowAll(values), ",")) == SortedDistinct(values)
  {
    var shown := ShowAll(values);
    ShowAllAt(values);
    ShowAllParse(values);
    forall k | 0 <= k < |shown| ensures shown[k] != [] && IsStripped(shown[k]) && ',' !in shown[k] {
      ShowIsToken(values[k]);
    }
    TokensRoundTrip(shown);
  }

  /** Writing ascending thresholds into the setting and parsing it again gives them back. */
  lemma ThresholdsRoundTrip(values: seq<int>)
    requires StrictlyAscending(values)
    ensures ParseThresholds(Join(ShowAll(values), ",")) == values
  {
    ParseWrittenSetting(values);
    SortedDistinctOfAscending(values);
  }
}
