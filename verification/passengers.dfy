/** `availableShips(passengerCount)`: the names of the starships that can
    carry at least `passengerCount` passengers, read page by page from the
    starships endpoint (pipeline/apis/0-passengers.py). */
module Passengers {
  import opened Wrappers
  import opened Text
  import opened Seqs
  import opened Paging

  /** A starship record: its `name` and its `passengers` string, which the
      API writes with thousands separators ("1,000") or as "n/a"/"unknown". */
  datatype Ship = Ship(name: string, passengers: string)

  /** Python's `int()` on a string, None where it raises ValueError.
      `Text.ParseInt` is the concrete one; the script is modelled for any
      parse function, and the lemmas that need `int()`'s behaviour say so. */
  type Parse = string -> Option<int>

  /** Whether the record loop keeps a ship: the passengers string is neither
      "n/a" nor "unknown", it parses once its commas are removed, and the
      number is at least `passengerCount`. */
  predicate Accepts(ship: Ship, passengerCount: int, parse: Parse) {
    && ship.passengers != "n/a"
    && ship.passengers != "unknown"
    && match parse(RemoveChar(ship.passengers, ','))
       case None => false
       case Some(v) => v >= passengerCount
  }

  /** Names of the accepted ships, in record order. */
  function Selected(ships: seq<Ship>, passengerCount: int, parse: Parse): seq<string> {
    if ships == [] then []
    else
      var last := ships[|ships| - 1];
      Selected(ships[..|ships| - 1], passengerCount, parse) + (if Accepts(last, passengerCount, parse) then [last.name] else [])
  }

  /** Positions of the accepted ships, ascending. */
  function AcceptedPositions(ships: seq<Ship>, passengerCount: int, parse: Parse): (p: seq<nat>)
    ensures Ascending(p)
    ensures forall k :: 0 <= k < |p| ==> p[k] < |ships|
  {
    if ships == [] then []
    else
      var n := |ships| - 1;
      var q := AcceptedPositions(ships[..n], passengerCount, parse);
      if Accepts(ships[n], passengerCount, parse) then q + [n] else q
  }

  /** The positions listed are exactly those of the accepted ships. */
  lemma {:induction false} AcceptedPositionsExact(ships: seq<Ship>, passengerCount: int, parse: Parse)
    ensures forall i :: 0 <= i < |ships| ==>
      (i in AcceptedPositions(ships, passengerCount, parse) <==> Accepts(ships[i], passengerCount, parse))
  {
    if ships != [] {
      var n := |ships| - 1;
      AcceptedPositionsExact(ships[..n], passengerCount, parse);
      assert forall i :: 0 <= i < n ==> ships[..n][i] == ships[i];
    }
  }

  /** The output is the subsequence of ship names at exactly the accepted
      positions: a ship is listed if and only if it is accepted, in record
      order. */
  lemma {:induction false} SelectedAtAcceptedPositions(ships: seq<Ship>, passengerCount: int, parse: Parse)
    ensures |Selected(ships, passengerCount, parse)| == |AcceptedPositions(ships, passengerCount, parse)|
    ensures forall k :: 0 <= k < |Selected(ships, passengerCount, parse)| ==>
      Selected(ships, passengerCount, parse)[k] == ships[AcceptedPositions(ships, passengerCount, parse)[k]].name
  {
    if ships != [] {
      var n := |ships| - 1;
      SelectedAtAcceptedPositions(ships[..n], passengerCount, parse);
      var q := AcceptedPositions(ships[..n], passengerCount, parse);
      assert forall k :: 0 <= k < |q| ==> ships[..n][q[k]] == ships[q[k]];
    }
  }

  lemma {:induction false} SelectedAppend(a: seq<Ship>, b: seq<Ship>, passengerCount: int, parse: Parse)
    ensures Selected(a + b, passengerCount, parse) == Selected(a, passengerCount, parse) + Selected(b, passengerCount, parse)
  {
    if b != [] {
      var n := |b| - 1;
      SelectedAppend(a, b[..n], passengerCount, parse);
      var ab := a + b;
      assert ab[..|ab| - 1] == a + b[..n];
      assert ab[|ab| - 1] == b[n];
      var tail := if Accepts(b[n], passengerCount, parse) then [b[n].name] else [];
      calc {
        Selected(ab, passengerCount, parse);
        Selected(a + b[..n], passengerCount, parse) + tail;
        Selected(a, passengerCount, parse) + Selected(b[..n], passengerCount, parse) + tail;
        Selected(a, passengerCount, parse) + Selected(b, passengerCount, parse);
      }
    } else {
      assert a + b == a;
    }
  }

  /** The explicit "n/a" / "unknown" test changes nothing when `parse` is
      Python's `int()`, which rejects both strings anyway: a ship is accepted
      exactly when its comma-stripped passengers string parses to at least
      `passengerCount`. */
  lemma GuardIsRedundant(ship: Ship, passengerCount: int)
    ensures Accepts(ship, passengerCount, ParseInt) <==>
      && ParseInt(RemoveChar(ship.passengers, ',')).Some?
      && ParseInt(RemoveChar(ship.passengers, ',')).value >= passengerCount
  {
    ParseIntRejectsPlaceholders();
    if ship.passengers == "n/a" {
      assert RemoveChar("n/a", ',') == "n/a";
    } else if ship.passengers == "unknown" {
      assert RemoveChar("unknown", ',') == "unknown";
    }
  }

  /** A passengers string of plain digits is read as its number, so the
      ship is kept exactly when that number reaches `passengerCount`. */
  lemma PlainDigitsCompared(name: string, digits: string, passengerCount: int, parse: Parse)
    requires ReadsPlainDigits(parse)
    requires |digits| >= 1 && AllDigits(digits)
    ensures Accepts(Ship(name, digits), passengerCount, parse) <==> DigitsValue(digits) >= passengerCount
  {
    assert ',' !in digits;
    assert digits != "n/a" && digits != "unknown" by {
      assert !IsDigit(digits[0]) || (digits[0] != 'n' && digits[0] != 'u');
    }
  }

  /** The record loop of one page: each accepted ship's name is appended
      to `ships`; a passengers string that `int()` rejects skips the ship. */
  method AppendAcceptedShips(ships: seq<string>, records: seq<Ship>, passengerCount: int, parse: Parse)
    returns (ships': seq<string>)
    ensures ships' == ships + Selected(records, passengerCount, parse)
  {
    ships' := ships;
    for i := 0 to |records|
      invariant ships' == ships + Selected(records[..i], passengerCount, parse)
    {
      var ship := records[i];
      assert records[..i + 1][..i] == records[..i];
      if ship.passengers != "n/a" && ship.passengers != "unknown" {
        var parsed := parse(RemoveChar(ship.passengers, ','));
        if parsed.None? {
          // int() raised ValueError: skip this ship
          continue;
        }
        if parsed.value >= passengerCount {
          ships' := ships' + [ship.name];
        }
      }
    }
    assert records[..|records|] == records;
  }

  /** The script itself. Page `p` of the answers is `pages[p - 1]`,
      `parse` stands for `int()`; the ghost `requested` lists the page
      numbers asked for. */
  method AvailableShips(pages: seq<Page<Ship>>, passengerCount: int, parse: Parse)
    returns (r: Result<seq<string>, FetchError>, ghost requested: seq<nat>)
    ensures LastPage(pages).Some? ==> r == Ok(Selected(Records(pages[..LastPage(pages).value + 1]), passengerCount, parse))
    ensures LastPage(pages).None? ==> r == Err(MissingPage(|pages| + 1))
    ensures requested == PageNumbers(if LastPage(pages).Some? then LastPage(pages).value + 1 else |pages| + 1)
  {
    var ships: seq<string> := [];
    var page: nat := 1;
    requested := [];
    while true
      invariant 1 <= page <= |pages| + 1
      invariant forall j :: 0 <= j < page - 1 ==> pages[j].next.Some?
      invariant requested == PageNumbers(page - 1)
      invariant ships == Selected(Records(pages[..page - 1]), passengerCount, parse)
      decreases |pages| + 1 - page
    {
      requested := requested + [page];
      if page > |pages| {
        return Err(MissingPage(page)), requested;
      }
      var data := pages[page - 1];
      ships := AppendAcceptedShips(ships, data.results, passengerCount, parse);
      RecordsStep(pages, page);
      SelectedAppend(Records(pages[..page - 1]), data.results, passengerCount, parse);
      if data.next.None? {
        LastPageIs(pages, page - 1);
        break;
      }
      page := page + 1;
    }
    r := Ok(ships);
  }
}
