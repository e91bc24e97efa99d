/** `sentientPlanets()`: the names of the home planets of all sentient
    species, read page by page from the species endpoint, without
    duplicates and in order of first appearance
    (pipeline/apis/1-sentience.py). */
module Sentience {
  import opened Wrappers
  import opened Seqs
  import opened Paging

  /** A species record. A field that is absent or JSON null is None. */
  datatype Species = Species(designation: Option<string>, classification: Option<string>, homeworld: Option<string>)

  /** Planet names by homeworld URL, defined exactly for the URLs whose
      request answers with status 200; the name is the `name` of that answer. */
  type PlanetLookup = map<string, string>

  predicate IsSentient(sp: Species) {
    sp.designation == Some("sentient") || sp.classification == Some("sentient")
  }

  /** A homeworld link that Python finds truthy: present and not empty. */
  predicate HasHomeworld(sp: Species) {
    sp.homeworld.Some? && sp.homeworld.value != ""
  }

  /** What one species appends to `planets`: nothing, the fetched planet name,
      or "unknown" when it has no homeworld. */
  function Contribution(sp: Species, lookup: PlanetLookup): (r: seq<string>)
    ensures |r| <= 1
    ensures r != [] ==> IsSentient(sp)
    ensures IsSentient(sp) && !HasHomeworld(sp) ==> r == ["unknown"]
    ensures HasHomeworld(sp) ==> (r != [] <==> IsSentient(sp) && sp.homeworld.value in lookup)
    ensures HasHomeworld(sp) && r != [] ==> r == [lookup[sp.homeworld.value]]
  {
    if !IsSentient(sp) then []
    else if HasHomeworld(sp) then
      if sp.homeworld.value in lookup then [lookup[sp.homeworld.value]] else []
    else ["unknown"]
  }

  /** The `planets` list built from the records, in record order. */
  function Collected(records: seq<Species>, lookup: PlanetLookup): seq<string> {
    ConcatMap(records, sp => Contribution(sp, lookup))
  }

  lemma CollectedAppend(a: seq<Species>, b: seq<Species>, lookup: PlanetLookup)
    ensures Collected(a + b, lookup) == Collected(a, lookup) + Collected(b, lookup)
  {
    ConcatMapAppend(a, b, sp => Contribution(sp, lookup));
  }

  /** A name is collected exactly when some record is a sentient species
      that either has no homeworld (the name being "unknown") or has one
      whose request succeeded and answered that name. */
  lemma {:induction false} CollectedMembers(records: seq<Species>, lookup: PlanetLookup, name: string)
    ensures name in Collected(records, lookup) <==>
      exists i :: 0 <= i < |records| && IsSentient(records[i]) &&
        if HasHomeworld(records[i])
        then records[i].homeworld.value in lookup && lookup[records[i].homeworld.value] == name
        else name == "unknown"
  {
    if records != [] {
      var n := |records| - 1;
      var front := records[..n];
      CollectedMembers(front, lookup, name);
      assert forall i :: 0 <= i < n ==> front[i] == records[i];
      assert Collected(records, lookup) == Collected(front, lookup) + Contribution(records[n], lookup);
    }
  }

  /** The de-duplication block of the script: a `seen` set and an output
      list, keeping the first occurrence of each name in order. */
  method RemoveDuplicates(planets: seq<string>) returns (unique: seq<string>)
    ensures unique == Distinct(planets)
    ensures NoDup(unique)
    ensures forall i :: 0 <= i < |planets| ==> planets[i] in unique
    ensures forall k :: 0 <= k < |unique| ==> unique[k] in planets
  {
    var seen: set<string> := {};
    unique := [];
    for i := 0 to |planets|
      invariant unique == Distinct(planets[..i])
      invariant forall x :: x in seen <==> x in unique
    {
      var planet := planets[i];
      assert planets[..i + 1] == planets[..i] + [planet];
      DistinctSnoc(planets[..i], planet);
      if planet !in seen {
        seen := seen + {planet};
        unique := unique + [planet];
      }
    }
    assert planets[..|planets|] == planets;
  }

  /** The record loop of one page: every sentient species appends its
      fetched home planet's name, or "unknown" when it has no homeworld. */
  method AppendPlanets(planets: seq<string>, records: seq<Species>, lookup: PlanetLookup)
    returns (planets': seq<string>)
    ensures planets' == planets + Collected(records, lookup)
  {
    planets' := planets;
    for i := 0 to |records|
      invariant planets' == planets + Collected(records[..i], lookup)
    {
      var species := records[i];
      assert records[..i + 1] == records[..i] + [species];
      ConcatMapSnoc(records[..i], species, sp => Contribution(sp, lookup));
      if species.designation == Some("sentient") || species.classification == Some("sentient") {
        var homeworld := species.homeworld;
        if homeworld.Some? && homeworld.value != "" {
          // the request for the homeworld succeeds exactly for the URLs in `lookup`
          if homeworld.value in lookup {
            planets' := planets' + [lookup[homeworld.value]];
          }
        } else {
          planets' := planets' + ["unknown"];
        }
      }
    }
    assert records[..|records|] == records;
  }

  /** The script itself. Page `p` of the answers is `pages[p - 1]`; the
      ghost `requested` lists the page numbers asked for. */
  method SentientPlanets(pages: seq<Page<Species>>, lookup: PlanetLookup)
    returns (r: Result<seq<string>, FetchError>, ghost requested: seq<nat>)
    ensures LastPage(pages).Some? ==> r == Ok(Distinct(Collected(Records(pages[..LastPage(pages).value + 1]), lookup)))
    ensures LastPage(pages).None? ==> r == Err(MissingPage(|pages| + 1))
    ensures requested == PageNumbers(if LastPage(pages).Some? then LastPage(pages).value + 1 else |pages| + 1)
  {
    var planets: seq<string> := [];
    var page: nat := 1;
    requested := [];
    while true
      invariant 1 <= page <= |pages| + 1
      invariant forall j :: 0 <= j < page - 1 ==> pages[j].next.Some?
      invariant requested == PageNumbers(page - 1)
      invariant planets == Collected(Records(pages[..page - 1]), lookup)
      decreases |pages| + 1 - page
    {
      requested := requested + [page];
      if page > |pages| {
        return Err(MissingPage(page)), requested;
      }
      var data := pages[page - 1];
      planets := AppendPlanets(planets, data.results, lookup);
      assert planets == Collected(Records(pages[..page]), lookup) by {
        RecordsStep(pages, page);
        CollectedAppend(Records(pages[..page - 1]), data.results, lookup);
      }
      if data.next.None? {
        LastPageIs(pages, page - 1);
        break;
      }
      page := page + 1;
    }

    var unique := RemoveDuplicates(planets);
    r := Ok(unique);
  }
}
