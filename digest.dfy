/**
  `format_digest`: the body of the alert e-mail, built from the licences
  selected under each threshold. The model keeps the digest's structure, one
  `DigestLine` per line of text: the title, then for every threshold in
  ascending order whose list is not empty a heading, one entry per licence
  and a blank line. The exact wording and date rendering are not modelled.
*/
module Digest {
  import opened Wrappers
  import opened Text
  import opened Dates
  import opened Licenses
  import Thresholds

  /** Shown for a licence without a company or without a number. */
  const Placeholder := "—"

  /** One entry of `items_by_threshold`: a threshold and the licences listed under it. */
  datatype Group = Group(threshold: int, items: seq<License>)

  datatype DigestLine =
    | Title
    | Heading(threshold: int)
    | Entry(company: string, licenseType: string, authority: string, number: string, expiry: Option<CalendarDate>)
    | Blank

  /** Every listed licence has an expiry date (the digest prints it). */
  predicate Listable(groups: seq<Group>) {
    forall k, j :: 0 <= k < |groups| && 0 <= j < |groups[k].items| ==> groups[k].items[j].expiry.Some?
  }

  /** The groups come from a dictionary: no threshold occurs twice. */
  predicate DistinctThresholds(groups: seq<Group>) {
    forall k, m :: 0 <= k < m < |groups| ==> groups[k].threshold != groups[m].threshold
  }

  /**
    One licence's line: '—' stands for a missing company and for a missing or
    empty number, so the digest cannot tell those apart from each other nor
    from a company or number that is literally '—'. Any other shown value is
    the licence's own.
  */
  function EntryOf(lic: License): (line: DigestLine)
    ensures line.Entry?
    ensures line.company == Placeholder <==> lic.company.None? || lic.company.value == Placeholder
    ensures line.company != Placeholder ==> lic.company == Some(line.company)
    ensures line.number == Placeholder <==> lic.number.None? || lic.number.value == "" || lic.number.value == Placeholder
    ensures line.number != Placeholder ==> lic.number == Some(line.number)
  {
    Entry(
      if lic.company.Some? then lic.company.value else Placeholder,
      lic.licenseType,
      lic.authority,
      if lic.number.Some? && lic.number.value != "" then lic.number.value else Placeholder,
      lic.expiry)
  }

  /** The dictionary's keys. */
  function Keys(groups: seq<Group>): (keys: seq<int>)
    ensures |keys| == |groups|
    ensures forall k :: 0 <= k < |groups| ==> keys[k] == groups[k].threshold
  {
    if groups == [] then [] else [groups[0].threshold] + Keys(groups[1..])
  }

  /** `items_by_threshold[t]`, the empty list for an absent key. */
  function Lookup(groups: seq<Group>, t: int): seq<License> {
    if groups == [] then []
    else if groups[0].threshold == t then groups[0].items
    else Lookup(groups[1..], t)
  }

  lemma {:induction false} LookupFinds(groups: seq<Group>, k: int)
    requires DistinctThresholds(groups) && 0 <= k < |groups|
    ensures Lookup(groups, groups[k].threshold) == groups[k].items
  {
    if k > 0 {
      assert groups[0].threshold != groups[k].threshold;
      LookupFinds(groups[1..], k - 1);
    }
  }

  lemma {:induction false} LookupAbsent(groups: seq<Group>, t: int)
    requires forall k :: 0 <= k < |groups| ==> groups[k].threshold != t
    ensures Lookup(groups, t) == []
  {
    if groups != [] {
      LookupAbsent(groups[1..], t);
    }
  }

  function Entries(items: seq<License>): (lines: seq<DigestLine>)
    ensures |lines| == |items|
    ensures forall j :: 0 <= j < |items| ==> lines[j] == EntryOf(items[j])
  {
    if items == [] then [] else Entries(items[..|items| - 1]) + [EntryOf(items[|items| - 1])]
  }

  /** The lines of one threshold: nothing for an empty list. */
  function Section(t: int, items: seq<License>): seq<DigestLine>
  {
    if items == [] then [] else [Heading(t)] + Entries(items) + [Blank]
  }

  /** The title followed by the lines of the thresholds in `order`, in that order. */
  function LinesFor(order: seq<int>, groups: seq<Group>): seq<DigestLine>
  {
    if order == [] then [Title]
    else
      var t := order[|order| - 1];
      LinesFor(order[..|order| - 1], groups) + Section(t, Lookup(groups, t))
  }

  /** The whole digest, line by line. */
  function DigestLines(groups: seq<Group>): seq<DigestLine>
  {
    LinesFor(Thresholds.SortedDistinct(Keys(groups)), groups)
  }

  lemma LinesSnoc(order: seq<int>, i: int, groups: seq<Group>)
    requires 0 <= i < |order|
    ensures LinesFor(order[..i + 1], groups)
      == LinesFor(order[..i], groups) + Section(order[i], Lookup(groups, order[i]))
  {
    assert order[..i + 1][..i] == order[..i];
  }

  lemma EntriesSnoc(items: seq<License>, j: int)
    requires 0 <= j < |items|
    ensures Entries(items[..j + 1]) == Entries(items[..j]) + [EntryOf(items[j])]
  {
    assert items[..j + 1][..j] == items[..j];
  }

  lemma SectionAppended(before: seq<DigestLine>, t: int, items: seq<License>)
    requires items != []
    ensures before + [Heading(t)] + Entries(items) + [Blank] == before + Section(t, items)
  {
    var h, e, b := [Heading(t)], Entries(items), [Blank];
    assert before + h + e + b == before + (h + e + b);
  }

  /**
    The inner part of `format_digest` for one non-empty list: appends the
    heading, one line per licence in list order, and the blank line.
  */
  method AppendSection(before: seq<DigestLine>, t: int, items: seq<License>) returns (lines: seq<DigestLine>)
    requires items != []
    ensures lines == before + Section(t, items)
  {
    lines := before + [Heading(t)];
    for j := 0 to |items|
      invariant lines == before + [Heading(t)] + Entries(items[..j])
    {
      EntriesSnoc(items, j);
      lines := lines + [EntryOf(items[j])];
    }
    assert items[..|items|] == items;
    lines := lines + [Blank];
    SectionAppended(before, t, items);
  }

  /**
    `format_digest(items_by_threshold)`, built by appending lines as the
    source does: thresholds in ascending order, empty lists skipped.
  */
  method FormatDigest(groups: seq<Group>) returns (lines: seq<DigestLine>)
    requires Listable(groups)
    ensures lines == DigestLines(groups)
  {
    lines := [Title];
    var order := Thresholds.SortedDistinct(Keys(groups));
    for i := 0 to |order|
      invariant lines == LinesFor(order[..i], groups)
    {
      var t := order[i];
      var items := Lookup(groups, t);
      LinesSnoc(order, i, groups);
      if items != [] {
        lines := AppendSection(lines, t, items);
      }
    }
    assert order[..|order|] == order;
  }

  // ---------------------------------------------------------------------
  // What the digest shows
  // ---------------------------------------------------------------------

  lemma {:induction false} EntriesMembers(items: seq<License>, line: DigestLine)
    ensures line in Entries(items) <==> exists j :: 0 <= j < |items| && line == EntryOf(items[j])
  {
    if line in Entries(items) {
      var j :| 0 <= j < |items| && Entries(items)[j] == line;
    }
  }

  /** A section holds one heading, its own, and only when it lists something. */
  lemma SectionHeadings(last: int, items: seq<License>, t: int)
    ensures Heading(t) in Section(last, items) <==> items != [] && t == last
  {
    if items != [] {
      EntriesMembers(items, Heading(t));
      assert Section(last, items) == [Heading(last)] + (Entries(items) + [Blank]);
    }
  }

  /** The lines of the first k thresholds of `order` begin the lines of all of them. */
  lemma {:induction false} LinesPrefix(order: seq<int>, groups: seq<Group>, k: int)
    requires 0 <= k <= |order|
    ensures LinesFor(order[..k], groups) <= LinesFor(order, groups)
    decreases |order| - k
  {
    if k < |order| {
      LinesPrefix(order, groups, k + 1);
      LinesSnoc(order, k, groups);
    } else {
      assert order[..k] == order;
    }
  }
  lemma {:induction false} LinesHeadingsSound(order: seq<int>, groups: seq<Group>, t: int)
    requires Heading(t) in LinesFor(order, groups)
    ensures t in order && Lookup(groups, t) != []
  {
    if order == [] {
      assert false;
    } else {
      var n := |order| - 1;
      var front := order[..n];
      var before, section := LinesFor(front, groups), Section(order[n], Lookup(groups, order[n]));
      assert LinesFor(order, groups) == before + section;
      if Heading(t) in before {
        LinesHeadingsSound(front, groups, t);
        var i :| 0 <= i < n && front[i] == t;
        assert order[i] == t;
      } else {
        assert Heading(t) in section;
        SectionHeadings(order[n], Lookup(groups, order[n]), t);
      }
    }
  }

  lemma LinesHeadingsComplete(order: seq<int>, groups: seq<Group>, i: int)
    requires 0 <= i < |order| && Lookup(groups, order[i]) != []
    ensures Heading(order[i]) in LinesFor(order, groups)
  {
    LinesPrefix(order, groups, i + 1);
    LinesSnoc(order, i, groups);
    var before, section := LinesFor(order[..i], groups), Section(order[i], Lookup(groups, order[i]));
    assert section[0] == Heading(order[i]);
    var upto := LinesFor(order[..i + 1], groups);
    assert upto == before + section;
    assert upto[|before|] == Heading(order[i]);
    assert LinesFor(order, groups)[|before|] == Heading(order[i]);
  }

  lemma LinesHeadings(order: seq<int>, groups: seq<Group>, t: int)
    ensures Heading(t) in LinesFor(order, groups) <==> t in order && Lookup(groups, t) != []
  {
    if Heading(t) in LinesFor(order, groups) {
      LinesHeadingsSound(order, groups, t);
    }
    if t in order && Lookup(groups, t) != [] {
      var i :| 0 <= i < |order| && order[i] == t;
      LinesHeadingsComplete(order, groups, i);
    }
  }

  /**
    A threshold has a heading in the digest exactly when it has a non-empty
    list of licences.
  */
  lemma DigestHeadings(groups: seq<Group>, t: int)
    requires DistinctThresholds(groups)
    ensures Heading(t) in DigestLines(groups) <==>
      exists k :: 0 <= k < |groups| && groups[k].threshold == t && groups[k].items != []
  {
    var keys := Keys(groups);
    var order := Thresholds.SortedDistinct(keys);
    LinesHeadings(order, groups, t);
    if exists k :: 0 <= k < |groups| && groups[k].threshold == t {
      var k :| 0 <= k < |groups| && groups[k].threshold == t;
      LookupFinds(groups, k);
      assert t in keys;
      forall k' | 0 <= k' < |groups| && groups[k'].threshold == t ensures k' == k {
      }
    } else {
      LookupAbsent(groups, t);
    }
  }

  /** An entry line is in a section exactly when it is one of the section's entries. */
  lemma SectionEntries(t: int, items: seq<License>, line: DigestLine)
    requires line.Entry?
    ensures line in Section(t, items) <==> line in Entries(items)
  {
    if items != [] {
      assert Section(t, items) == [Heading(t)] + (Entries(items) + [Blank]);
    }
  }

  lemma {:induction false} LinesEntriesSound(order: seq<int>, groups: seq<Group>, line: DigestLine)
    requires line.Entry? && line in LinesFor(order, groups)
    ensures exists i :: 0 <= i < |order| && line in Section(order[i], Lookup(groups, order[i]))
  {
    var n := |order| - 1;
    var front := order[..n];
    var before := LinesFor(front, groups);
    if line in before {
      LinesEntriesSound(front, groups, line);
      var i :| 0 <= i < n && line in Section(front[i], Lookup(groups, front[i]));
      assert front[i] == order[i];
    } else {
      assert line in Section(order[n], Lookup(groups, order[n]));
    }
  }

  /** The j-th licence of a non-empty section sits right after its heading. */
  lemma SectionEntryAt(t: int, items: seq<License>, j: int)
    requires 0 <= j < |items|
    ensures EntryOf(items[j]) in Section(t, items)
  {
    var e := Entries(items);
    var he := [Heading(t)] + e;
    assert Section(t, items) == he + [Blank];
    assert he[1 + j] == e[j];
    assert (he + [Blank])[1 + j] == EntryOf(items[j]);
  }

  lemma InPrefix(before: seq<DigestLine>, section: seq<DigestLine>, whole: seq<DigestLine>, line: DigestLine)
    requires before + section <= whole && line in section
    ensures line in whole
  {
    var p :| 0 <= p < |section| && section[p] == line;
    assert (before + section)[|before| + p] == line;
    assert whole[|before| + p] == line;
  }

  /** A line of the sections before and including threshold i is a line of the whole digest. */
  lemma LinesUptoIn(order: seq<int>, groups: seq<Group>, i: int, line: DigestLine)
    requires 0 <= i < |order| && line in Section(order[i], Lookup(groups, order[i]))
    ensures line in LinesFor(order, groups)
  {
    LinesPrefix(order, groups, i + 1);
    LinesSnoc(order, i, groups);
    var before, section := LinesFor(order[..i], groups), Section(order[i], Lookup(groups, order[i]));
    InPrefix(before, section, LinesFor(order, groups), line);
  }

  lemma LinesEntriesComplete(order: seq<int>, groups: seq<Group>, i: int, j: int)
    requires 0 <= i < |order| && 0 <= j < |Lookup(groups, order[i])|
    ensures EntryOf(Lookup(groups, order[i])[j]) in LinesFor(order, groups)
  {
    SectionEntryAt(order[i], Lookup(groups, order[i]), j);
    LinesUptoIn(order, groups, i, EntryOf(Lookup(groups, order[i])[j]));
  }

  /** Every entry line of the digest belongs to a listed licence. */
  lemma DigestEntriesSound(groups: seq<Group>, line: DigestLine)
    requires DistinctThresholds(groups) && line.Entry? && line in DigestLines(groups)
    ensures exists k, j :: 0 <= k < |groups| && 0 <= j < |groups[k].items| && line == EntryOf(groups[k].items[j])
  {
    var keys := Keys(groups);
    var order := Thresholds.SortedDistinct(keys);
    LinesEntriesSound(order, groups, line);
    var i :| 0 <= i < |order| && line in Section(order[i], Lookup(groups, order[i]));
    var items := Lookup(groups, order[i]);
    SectionEntries(order[i], items, line);
    var j :| 0 <= j < |items| && Entries(items)[j] == line;
    assert order[i] in keys;
    var k :| 0 <= k < |groups| && keys[k] == order[i];
    LookupFinds(groups, k);
    assert line == EntryOf(groups[k].items[j]);
  }

  /** Every listed licence has its line in the digest. */
  lemma DigestEntriesComplete(groups: seq<Group>, k: int, j: int)
    requires DistinctThresholds(groups) && 0 <= k < |groups| && 0 <= j < |groups[k].items|
    ensures EntryOf(groups[k].items[j]) in DigestLines(groups)
  {
    var keys := Keys(groups);
    var order := Thresholds.SortedDistinct(keys);
    LookupFinds(groups, k);
    assert keys[k] in keys;
    var i :| 0 <= i < |order| && order[i] == groups[k].threshold;
    LinesEntriesComplete(order, groups, i, j);
  }

  /** Every listed licence has its line in the digest, and every entry line is a listed licence's. */
  lemma DigestEntries(groups: seq<Group>, line: DigestLine)
    requires DistinctThresholds(groups) && line.Entry?
    ensures line in DigestLines(groups) <==>
      exists k, j :: 0 <= k < |groups| && 0 <= j < |groups[k].items| && line == EntryOf(groups[k].items[j])
  {
    if line in DigestLines(groups) {
      DigestEntriesSound(groups, line);
    }
    if exists k, j :: 0 <= k < |groups| && 0 <= j < |groups[k].items| && line == EntryOf(groups[k].items[j]) {
      var k, j :| 0 <= k < |groups| && 0 <= j < |groups[k].items| && line == EntryOf(groups[k].items[j]);
      DigestEntriesComplete(groups, k, j);
    }
  }

  lemma SectionHeadingFirst(t: int, items: seq<License>, p: int)
    requires 0 <= p < |Section(t, items)| && Section(t, items)[p].Heading?
    ensures p == 0 && Section(t, items)[p].threshold == t
  {
  }

  lemma {:induction false} LinesAscending(order: seq<int>, groups: seq<Group>)
    requires Thresholds.StrictlyAscending(order)
    ensures forall p, q ::
      (0 <= p < q < |LinesFor(order, groups)|
       && LinesFor(order, groups)[p].Heading? && LinesFor(order, groups)[q].Heading?) ==>
      LinesFor(order, groups)[p].threshold < LinesFor(order, groups)[q].threshold
  {
    if order != [] {
      var n := |order| - 1;
      var last := order[n];
      var front := order[..n];
      LinesAscending(front, groups);
      var items := Lookup(groups, last);
      var before := LinesFor(front, groups);
      var all := LinesFor(order, groups);
      assert all == before + Section(last, items);
      forall p, q | 0 <= p < q < |all| && all[p].Heading? && all[q].Heading?
        ensures all[p].threshold < all[q].threshold
      {
        if q < |before| {
          assert all[p] == before[p] && all[q] == before[q];
        } else {
          SectionHeadingFirst(last, items, q - |before|);
          if p >= |before| {
            SectionHeadingFirst(last, items, p - |before|);
          } else {
            assert all[p] == before[p] && before[p] in before;
            LinesHeadings(front, groups, before[p].threshold);
            var i :| 0 <= i < n && front[i] == before[p].threshold;
          }
        }
      }
    }
  }

  /** Headings appear in strictly ascending order of threshold. */
  lemma DigestHeadingsAscending(groups: seq<Group>)
    ensures var lines := DigestLines(groups);
      forall p, q :: (0 <= p < q < |lines| && lines[p].Heading? && lines[q].Heading?) ==>
        lines[p].threshold < lines[q].threshold
  {
    LinesAscending(Thresholds.SortedDistinct(Keys(groups)), groups);
  }

  lemma {:induction false} LookupEmpty(groups: seq<Group>, t: int)
    requires forall k :: 0 <= k < |groups| ==> groups[k].items == []
    ensures Lookup(groups, t) == []
  {
    if groups != [] && groups[0].threshold != t {
      LookupEmpty(groups[1..], t);
    }
  }

  lemma {:induction false} EmptyLinesFor(order: seq<int>, groups: seq<Group>)
    requires forall k :: 0 <= k < |groups| ==> groups[k].items == []
    ensures LinesFor(order, groups) == [Title]
  {
    if order != [] {
      EmptyLinesFor(order[..|order| - 1], groups);
      LookupEmpty(groups, order[|order| - 1]);
    }
  }

  /** When every list is empty the digest is the title alone. */
  lemma EmptyGroupsGiveTitleOnly(groups: seq<Group>)
    requires forall k :: 0 <= k < |groups| ==> groups[k].items == []
    ensures DigestLines(groups) == [Title]
  {
    EmptyLinesFor(Thresholds.SortedDistinct(Keys(groups)), groups);
  }
}
