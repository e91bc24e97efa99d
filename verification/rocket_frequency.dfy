/** Launches per rocket: `count_launches` counts the launches of each rocket
    id, `display_launch_counts` keeps the ids whose name is known, rekeys
    them by name and prints "Name: count" lines ordered by count, most
    launches first, then by name (pipeline/apis/4-rocket_frequency.py). */
module RocketFrequency {
  import opened Wrappers
  import opened Seqs
  import opened Text

  /** A launch record; `rocket` is None when the key is absent or null. */
  datatype Launch = Launch(rocket: Option<string>)

  /** `if rocket_id:` -- the id is present and not the empty string. */
  predicate HasRocket(l: Launch) {
    l.rocket.Some? && l.rocket.value != ""
  }

  function RocketIdOf(l: Launch): seq<string> {
    if HasRocket(l) then [l.rocket.value] else []
  }

  /** The truthy rocket ids of the launches, in launch order. */
  function RocketIds(launches: seq<Launch>): seq<string> {
    ConcatMap(launches, RocketIdOf)
  }

  /** The number of launches whose rocket is `id`. */
  function LaunchesOf(launches: seq<Launch>, id: string): nat {
    if launches == [] then 0
    else LaunchesOf(launches[..|launches| - 1], id) + (if launches[|launches| - 1].rocket == Some(id) then 1 else 0)
  }

  lemma LaunchesOfSnoc(launches: seq<Launch>, l: Launch, id: string)
    ensures LaunchesOf(launches + [l], id) == LaunchesOf(launches, id) + (if l.rocket == Some(id) then 1 else 0)
  {
    assert (launches + [l])[..|launches|] == launches;
  }

  /** The dictionary `rocket_launch_count`: its keys in insertion order and
      its values. */
  datatype Counter = Counter(order: seq<string>, counts: map<string, nat>)

  /** What a Python dict guarantees: each key once, and a value for every key. */
  ghost predicate WellFormed(c: Counter) {
    NoDup(c.order) && forall id :: id in c.counts <==> id in c.order
  }

  /** The sum of the values of the listed keys. */
  function SumCounts(order: seq<string>, counts: map<string, nat>): nat {
    if order == [] then 0
    else
      var id := order[|order| - 1];
      SumCounts(order[..|order| - 1], counts) + (if id in counts then counts[id] else 0)
  }

  lemma {:induction false} SumCountsUnaffected(order: seq<string>, counts: map<string, nat>, id: string, v: nat)
    requires id !in order
    ensures SumCounts(order, counts[id := v]) == SumCounts(order, counts)
  {
    if order != [] {
      SumCountsUnaffected(order[..|order| - 1], counts, id, v);
    }
  }

  lemma {:induction false} SumCountsIncrement(order: seq<string>, counts: map<string, nat>, id: string)
    requires NoDup(order) && id in order && id in counts
    ensures SumCounts(order, counts[id := counts[id] + 1]) == SumCounts(order, counts) + 1
  {
    var n := |order| - 1;
    var front := order[..n];
    assert NoDup(front);
    if order[n] == id {
      assert id !in front;
      SumCountsUnaffected(front, counts, id, counts[id] + 1);
    } else {
      assert id in front;
      SumCountsIncrement(front, counts, id);
    }
  }

  /** `c` is the count dictionary of the launches `ls`: the keys are the
      truthy ids in order of first launch, the count of an id is its number
      of launches, and the counts add up to the number of launches with a
      truthy rocket id. */
  ghost predicate CountsOf(ls: seq<Launch>, c: Counter) {
    && WellFormed(c)
    && c.order == Distinct(RocketIds(ls))
    && Tallies(ls, c.counts)
    && SumCounts(c.order, c.counts) == |RocketIds(ls)|
  }

  /** A launch without a truthy rocket id leaves the dictionary as it is. */
  lemma CountSkip(ls: seq<Launch>, l: Launch, c: Counter)
    requires CountsOf(ls, c) && !HasRocket(l)
    ensures CountsOf(ls + [l], c)
  {
    ConcatMapSnoc(ls, l, RocketIdOf);
    assert RocketIdOf(l) == [];
    assert RocketIds(ls + [l]) == RocketIds(ls);
    forall id | id != ""
      ensures LaunchesOf(ls + [l], id) == LaunchesOf(ls, id)
    {
      LaunchesOfSnoc(ls, l, id);
    }
    assert forall id :: id in c.counts <==> id != "" && LaunchesOf(ls + [l], id) > 0;
    assert forall id :: id in c.counts ==> c.counts[id] == LaunchesOf(ls + [l], id);
  }

  /** The counts of `ls` are the launch tallies of its truthy ids. */
  ghost predicate Tallies(ls: seq<Launch>, counts: map<string, nat>) {
    && (forall id :: id in counts <==> id != "" && LaunchesOf(ls, id) > 0)
    && (forall id :: id in counts ==> counts[id] == LaunchesOf(ls, id))
  }

  /** Counting one more launch of a truthy id keeps the tallies exact. */
  lemma TalliesStep(ls: seq<Launch>, l: Launch, counts: map<string, nat>)
    requires Tallies(ls, counts) && HasRocket(l)
    ensures var id := l.rocket.value;
      Tallies(ls + [l], counts[id := if id in counts then counts[id] + 1 else 1])
  {
    var id := l.rocket.value;
    var counts' := counts[id := if id in counts then counts[id] + 1 else 1];
    forall x
      ensures x in counts' <==> x != "" && LaunchesOf(ls + [l], x) > 0
      ensures x in counts' ==> counts'[x] == LaunchesOf(ls + [l], x)
    {
      LaunchesOfSnoc(ls, l, x);
    }
  }

  /** Changing the value of a present key keeps the dictionary well formed. */
  lemma WellFormedUpdate(c: Counter, id: string, v: nat)
    requires WellFormed(c) && id in c.counts
    ensures WellFormed(Counter(c.order, c.counts[id := v]))
  {
  }

  /** Adding a new key last, with its value, keeps the dictionary well formed. */
  lemma WellFormedInsert(c: Counter, id: string, v: nat)
    requires WellFormed(c) && id !in c.counts
    ensures WellFormed(Counter(c.order + [id], c.counts[id := v]))
  {
  }

  /** A launch of a rocket already counted increments its count. */
  lemma CountIncrement(ls: seq<Launch>, l: Launch, c: Counter)
    requires CountsOf(ls, c) && HasRocket(l) && l.rocket.value in c.counts
    ensures CountsOf(ls + [l], Counter(c.order, c.counts[l.rocket.value := c.counts[l.rocket.value] + 1]))
  {
    var id := l.rocket.value;
    var counts' := c.counts[id := c.counts[id] + 1];
    assert RocketIds(ls + [l]) == RocketIds(ls) + [id] by {
      ConcatMapSnoc(ls, l, RocketIdOf);
      assert RocketIdOf(l) == [id];
    }
    assert Distinct(RocketIds(ls + [l])) == c.order by {
      assert id in Distinct(RocketIds(ls));
      DistinctSnoc(RocketIds(ls), id);
    }
    assert SumCounts(c.order, counts') == SumCounts(c.order, c.counts) + 1 by {
      assert id in c.order;
      SumCountsIncrement(c.order, c.counts, id);
    }
    WellFormedUpdate(c, id, c.counts[id] + 1);
    TalliesStep(ls, l, c.counts);
  }

  /** The first launch of a rocket adds its id last, with count 1. */
  lemma CountInsert(ls: seq<Launch>, l: Launch, c: Counter)
    requires CountsOf(ls, c) && HasRocket(l) && l.rocket.value !in c.counts
    ensures CountsOf(ls + [l], Counter(c.order + [l.rocket.value], c.counts[l.rocket.value := 1]))
  {
    var id := l.rocket.value;
    var order', counts' := c.order + [id], c.counts[id := 1];
    assert RocketIds(ls + [l]) == RocketIds(ls) + [id] by {
      ConcatMapSnoc(ls, l, RocketIdOf);
      assert RocketIdOf(l) == [id];
    }
    assert Distinct(RocketIds(ls + [l])) == order' by {
      assert id !in c.order;
      DistinctSnoc(RocketIds(ls), id);
    }
    assert SumCounts(order', counts') == SumCounts(c.order, c.counts) + 1 by {
      assert id !in c.order;
      SumCountsUnaffected(c.order, c.counts, id, 1);
      assert order'[..|order'| - 1] == c.order;
    }
    WellFormedInsert(c, id, 1);
    TalliesStep(ls, l, c.counts);
  }

  /** `count_launches`: the count of an id is the number of its launches,
      the keys are exactly the truthy ids seen (in order of first launch),
      every count is at least 1, and the counts add up to the number of
      launches with a truthy rocket id. */
  method CountLaunches(launches: seq<Launch>) returns (c: Counter)
    ensures WellFormed(c)
    ensures c.order == Distinct(RocketIds(launches))
    ensures forall id :: id in c.counts <==> id != "" && LaunchesOf(launches, id) > 0
    ensures forall id :: id in c.counts ==> c.counts[id] == LaunchesOf(launches, id) >= 1
    ensures SumCounts(c.order, c.counts) == |RocketIds(launches)|
  {
    var order: seq<string> := [];
    var counts: map<string, nat> := map[];
    for i := 0 to |launches|
      invariant CountsOf(launches[..i], Counter(order, counts))
    {
      var launch := launches[i];
      assert launches[..i + 1] == launches[..i] + [launch];
      var rocketId := launch.rocket;
      if rocketId.Some? && rocketId.value != "" {
        var id := rocketId.value;
        if id in counts {
          CountIncrement(launches[..i], launch, Counter(order, counts));
          counts := counts[id := counts[id] + 1];
        } else {
          CountInsert(launches[..i], launch, Counter(order, counts));
          order := order + [id];
          counts := counts[id := 1];
        }
      } else {
        CountSkip(launches[..i], launch, Counter(order, counts));
      }
    }
    assert launches[..|launches|] == launches;
    c := Counter(order, counts);
  }

  /** An item of a dictionary: (key, value). */
  type Entry = (string, nat)

  /** The items of the count dictionary, in its order. */
  function Items(c: Counter): seq<Entry>
    requires forall id :: id in c.order ==> id in c.counts
  {
    seq(|c.order|, i requires 0 <= i < |c.order| => (c.order[i], c.counts[c.order[i]]))
  }

  predicate DistinctKeys(s: seq<Entry>) {
    forall i, j :: 0 <= i < j < |s| ==> s[i].0 != s[j].0
  }

  /** The value stored under `key`, if any (the first item with that key). */
  function Lookup(s: seq<Entry>, key: string): Option<nat> {
    if s == [] then None
    else if s[0].0 == key then Some(s[0].1)
    else Lookup(s[1..], key)
  }

  lemma {:induction false} LookupAbsent(s: seq<Entry>, key: string)
    ensures Lookup(s, key).None? <==> forall i :: 0 <= i < |s| ==> s[i].0 != key
  {
    if s != [] {
      LookupAbsent(s[1..], key);
      assert forall i :: 1 <= i < |s| ==> s[i] == s[1..][i - 1];
    }
  }

  /** `d[key] = value` on a dictionary kept as its list of items: an
      existing key keeps its place and takes the new value, a new key goes
      last. */
  function Put(s: seq<Entry>, key: string, value: nat): (r: seq<Entry>)
    ensures DistinctKeys(s) ==> DistinctKeys(r)
    ensures forall k :: Lookup(r, k) == if k == key then Some(value) else Lookup(s, k)
  {
    if s == [] then [(key, value)]
    else if s[0].0 == key then
      [(key, value)] + s[1..]
    else
      var t := Put(s[1..], key, value);
      LookupAbsent(s[1..], s[0].0);
      LookupAbsent(t, s[0].0);
      [s[0]] + t
  }

  /** The comprehension `valid_counts`: items whose id is unknown to `names`
      are dropped, the others are stored under the id's name
      (`names.get(rid, "Unknown Rocket")`), in the dictionary's order, so
      that a later id with the same name overwrites the count of an earlier
      one. */
  function ValidCounts(items: seq<Entry>, names: map<string, string>): (r: seq<Entry>)
    ensures DistinctKeys(r)
  {
    if items == [] then []
    else
      var rid := items[|items| - 1].0;
      var rest := ValidCounts(items[..|items| - 1], names);
      if rid in names then
        Put(rest, if rid in names then names[rid] else "Unknown Rocket", items[|items| - 1].1)
      else rest
  }

  /** Searching from the end: the count of the last item whose id is known
      and named `name`. */
  function LastCountNamed(items: seq<Entry>, names: map<string, string>, name: string): Option<nat> {
    if items == [] then None
    else
      var it := items[|items| - 1];
      if it.0 in names && names[it.0] == name then Some(it.1)
      else LastCountNamed(items[..|items| - 1], names, name)
  }

  /** A name appears in `valid_counts` exactly when some known id carries it
      (so the "Unknown Rocket" default never shows), and its count is the
      one of the last such id in the dictionary's order. */
  lemma {:induction false} ValidCountsByName(items: seq<Entry>, names: map<string, string>, name: string)
    ensures Lookup(ValidCounts(items, names), name) == LastCountNamed(items, names, name)
  {
    if items != [] {
      ValidCountsByName(items[..|items| - 1], names, name);
    }
  }

  lemma {:induction false} LookupIsMember(s: seq<Entry>, e: Entry)
    requires DistinctKeys(s)
    ensures e in s <==> Lookup(s, e.0) == Some(e.1)
  {
    if s != [] {
      assert DistinctKeys(s[1..]);
      LookupIsMember(s[1..], e);
    }
  }

  /** The order of `sorted(..., key=lambda item: (-item[1], item[0]))`:
      more launches first, equal counts by name. */
  predicate Before(a: Entry, b: Entry) {
    a.1 > b.1 || (a.1 == b.1 && StringLess(a.0, b.0))
  }

  predicate SortedByRank(s: seq<Entry>) {
    forall i, j :: 0 <= i < j < |s| ==> Before(s[i], s[j])
  }

  lemma BeforeTransitive(a: Entry, b: Entry, c: Entry)
    requires Before(a, b) && Before(b, c)
    ensures Before(a, c)
  {
    if a.1 == b.1 == c.1 {
      StringLessTransitive(a.0, b.0, c.0);
    }
  }

  lemma BeforeTotal(a: Entry, b: Entry)
    requires a.0 != b.0
    ensures Before(a, b) || Before(b, a)
  {
    StringLessTotal(a.0, b.0);
  }

  lemma BeforeAsymmetric(a: Entry, b: Entry)
    requires Before(a, b)
    ensures !Before(b, a)
  {
    if a.1 == b.1 {
      StringLessAsymmetric(a.0, b.0);
    }
  }

  function Insert(e: Entry, s: seq<Entry>): (r: seq<Entry>)
    ensures multiset(r) == multiset(s) + multiset{e}
  {
    if s == [] then [e]
    else if Before(s[0], e) then
      assert s == [s[0]] + s[1..];
      [s[0]] + Insert(e, s[1..])
    else [e] + s
  }

  /** The model of the call to `sorted`: insertion sort by `Before`. */
  function SortByRank(s: seq<Entry>): (r: seq<Entry>)
    ensures multiset(r) == multiset(s)
  {
    if s == [] then []
    else
      assert s == [s[0]] + s[1..];
      Insert(s[0], SortByRank(s[1..]))
  }

  lemma {:induction false} InsertSorted(e: Entry, s: seq<Entry>)
    requires SortedByRank(s)
    requires forall k :: 0 <= k < |s| ==> s[k].0 != e.0
    ensures SortedByRank(Insert(e, s))
  {
    if s != [] {
      if Before(s[0], e) {
        InsertSorted(e, s[1..]);
        var t := Insert(e, s[1..]);
        forall k | 0 <= k < |t|
          ensures Before(s[0], t[k])
        {
          assert t[k] in multiset(t);
          if t[k] != e {
            assert t[k] in multiset(s[1..]);
            var j :| 0 <= j < |s[1..]| && s[1..][j] == t[k];
            assert s[1 + j] == t[k];
          }
        }
      } else {
        BeforeTotal(s[0], e);
        forall k | 1 <= k < |s|
          ensures Before(e, s[k])
        {
          BeforeTransitive(e, s[0], s[k]);
        }
      }
    }
  }

  lemma {:induction false} SortByRankSorted(s: seq<Entry>)
    requires DistinctKeys(s)
    ensures SortedByRank(SortByRank(s))
  {
    if s != [] {
      assert DistinctKeys(s[1..]);
      SortByRankSorted(s[1..]);
      var t := SortByRank(s[1..]);
      forall k | 0 <= k < |t|
        ensures t[k].0 != s[0].0
      {
        assert t[k] in multiset(s[1..]);
        var j :| 0 <= j < |s[1..]| && s[1..][j] == t[k];
        assert s[1 + j] == t[k];
      }
      InsertSorted(s[0], t);
    }
  }

  /** The entries displayed: `sorted(valid_counts.items(), ...)`. */
  function DisplayedEntries(c: Counter, names: map<string, string>): seq<Entry>
    requires forall id :: id in c.order ==> id in c.counts
  {
    SortByRank(ValidCounts(Items(c), names))
  }

  /** What is displayed: every known rocket name once, with the count of
      the last id carrying that name, ordered by count descending and then
      by name. */
  lemma DisplayedEntriesSpec(c: Counter, names: map<string, string>)
    requires forall id :: id in c.order ==> id in c.counts
    ensures SortedByRank(DisplayedEntries(c, names))
    ensures forall e :: e in DisplayedEntries(c, names) <==> LastCountNamed(Items(c), names, e.0) == Some(e.1)
  {
    var v := ValidCounts(Items(c), names);
    var r := DisplayedEntries(c, names);
    SortByRankSorted(v);
    forall e
      ensures e in r <==> LastCountNamed(Items(c), names, e.0) == Some(e.1)
    {
      assert e in r <==> e in multiset(v);
      LookupIsMember(v, e);
      ValidCountsByName(Items(c), names, e.0);
    }
  }

  /** One output line, "{}: {}".format(name, count): the name, then ": ",
      then a decimal numeral that reads back as the count. */
  function FormatLine(e: Entry): (r: string)
    ensures |r| >= |e.0| + 3
    ensures r[..|e.0|] == e.0 && r[|e.0|..|e.0| + 2] == ": "
    ensures AllDigits(r[|e.0| + 2..]) && DigitsValue(r[|e.0| + 2..]) == e.1
  {
    NatToStringValue(e.1);
    var r := e.0 + ": " + NatToString(e.1);
    assert r[|e.0| + 2..] == NatToString(e.1);
    r
  }

  /** `display_launch_counts`: one line per displayed entry, in order. */
  method DisplayLaunchCounts(c: Counter, names: map<string, string>) returns (lines: seq<string>)
    requires forall id :: id in c.order ==> id in c.counts
    ensures |lines| == |DisplayedEntries(c, names)|
    ensures forall i :: 0 <= i < |lines| ==> lines[i] == FormatLine(DisplayedEntries(c, names)[i])
  {
    var validCounts := ValidCounts(Items(c), names);
    var sortedRockets := SortByRank(validCounts);
    lines := [];
    for i := 0 to |sortedRockets|
      invariant |lines| == i
      invariant forall j :: 0 <= j < i ==> lines[j] == FormatLine(sortedRockets[j])
    {
      lines := lines + [FormatLine(sortedRockets[i])];
    }
  }
}
