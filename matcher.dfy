/** The vehicle matcher: a scan of the dataset in order that stops at the
    first record passing one of five checks, tried per record in the order
    id, hex, name, model, gxt. */
module Matcher {
  import opened Text
  import opened Records

  /** Which of the five checks selected a record. */
  datatype Rule = ById | ByHex | ByName | ByModel | ByGxt

  /** The verdict on one record: selected by a rule, passed over, or an
      exception (`.lower()` called on a truthy value that is not a string). */
  datatype Check = Hit(rule: Rule) | Miss | Raises

  /** What `search_vehicle` does: returns a record, returns `None`, or raises. */
  datatype SearchResult = Found(vehicle: Record) | NotFound | SearchError

  /** `vehicle.get(key) == query`: only a present string equal to the query,
      so a numeric JSON value never matches. */
  predicate ExactHit(f: Field, query: string) {
    f == Str(query)
  }

  /** `vehicle.get(key) and term in vehicle[key].lower()`. */
  function SubstringCheck(f: Field, term: string, rule: Rule): Check {
    if !Truthy(f) then Miss
    else if f.Str? then (if Contains(Lower(f.s), term) then Hit(rule) else Miss)
    else Raises
  }

  /** The five checks on one record, in the order the loop body tries them. */
  function Probe(v: Record, query: string): (c: Check)
    ensures c == Hit(ById) <==> ExactHit(v.id, query)
    ensures c == Hit(ByHex) <==> !ExactHit(v.id, query) && ExactHit(v.hex, query)
    ensures c == Hit(ByName) ==> v.name.Str? && Contains(Lower(v.name.s), Lower(query))
    ensures c == Hit(ByModel) ==> v.model.Str? && Contains(Lower(v.model.s), Lower(query))
    ensures c == Hit(ByGxt) ==> v.gxt.Str? && Contains(Lower(v.gxt.s), Lower(query))
    ensures c == Raises ==>
      || (Truthy(v.name) && !v.name.Str?)
      || (Truthy(v.model) && !v.model.Str?)
      || (Truthy(v.gxt) && !v.gxt.Str?)
  {
    var term := Lower(query);
    if ExactHit(v.id, query) then Hit(ById)
    else if ExactHit(v.hex, query) then Hit(ByHex)
    else
      var byName := SubstringCheck(v.name, term, ByName);
      if !byName.Miss? then byName
      else
        var byModel := SubstringCheck(v.model, term, ByModel);
        if !byModel.Miss? then byModel
        else SubstringCheck(v.gxt, term, ByGxt)
  }

  /** The result of the scan; a found record is one of the dataset's. */
  function Search(vehicles: seq<Record>, query: string): (r: SearchResult)
    ensures r.Found? ==> r.vehicle in vehicles
    decreases |vehicles|
  {
    if vehicles == [] then NotFound
    else match Probe(vehicles[0], query)
      case Hit(_) => Found(vehicles[0])
      case Raises => SearchError
      case Miss => Search(vehicles[1..], query)
  }

  /** `search_vehicle`: the `for` loop with an early `return` per check. */
  method SearchVehicle(vehicles: seq<Record>, query: string) returns (r: SearchResult)
    ensures r == Search(vehicles, query)
  {
    var term := Lower(query);
    for i := 0 to |vehicles|
      invariant forall j :: 0 <= j < i ==> Probe(vehicles[j], query) == Miss
    {
      var v := vehicles[i];
      if v.id == Str(query) {
        SearchFirstHit(vehicles, query, i);
        return Found(v);
      }
      if v.hex == Str(query) {
        SearchFirstHit(vehicles, query, i);
        return Found(v);
      }
      if Truthy(v.name) {
        if !v.name.Str? {
          SearchFirstHit(vehicles, query, i);
          return SearchError;
        }
        if Contains(Lower(v.name.s), term) {
          SearchFirstHit(vehicles, query, i);
          return Found(v);
        }
      }
      if Truthy(v.model) {
        if !v.model.Str? {
          SearchFirstHit(vehicles, query, i);
          return SearchError;
        }
        if Contains(Lower(v.model.s), term) {
          SearchFirstHit(vehicles, query, i);
          return Found(v);
        }
      }
      if Truthy(v.gxt) {
        if !v.gxt.Str? {
          SearchFirstHit(vehicles, query, i);
          return SearchError;
        }
        if Contains(Lower(v.gxt.s), term) {
          SearchFirstHit(vehicles, query, i);
          return Found(v);
        }
      }
    }
    SearchNotFoundIff(vehicles, query);
    return NotFound;
  }

  /** First match wins: when every record before index `i` is passed over,
      the record at `i` decides the search if any check on it fires. */
  lemma {:induction false} SearchFirstHit(vehicles: seq<Record>, query: string, i: int)
    requires 0 <= i < |vehicles|
    requires forall j :: 0 <= j < i ==> Probe(vehicles[j], query) == Miss
    ensures Probe(vehicles[i], query).Hit? ==> Search(vehicles, query) == Found(vehicles[i])
    ensures Probe(vehicles[i], query) == Raises ==> Search(vehicles, query) == SearchError
    decreases i
  {
    if i > 0 {
      assert Probe(vehicles[0], query) == Miss;
      SearchFirstHit(vehicles[1..], query, i - 1);
    }
  }

  /** A found record sits at an index where some check fires and before
      which every record is passed over. */
  lemma {:induction false} SearchFoundAt(vehicles: seq<Record>, query: string)
    requires Search(vehicles, query).Found?
    ensures exists i ::
      && 0 <= i < |vehicles|
      && vehicles[i] == Search(vehicles, query).vehicle
      && Probe(vehicles[i], query).Hit?
      && (forall j :: 0 <= j < i ==> Probe(vehicles[j], query) == Miss)
    decreases |vehicles|
  {
    if !Probe(vehicles[0], query).Hit? {
      SearchFoundAt(vehicles[1..], query);
      var i :| 0 <= i < |vehicles| - 1 && vehicles[1..][i] == Search(vehicles[1..], query).vehicle
        && Probe(vehicles[1..][i], query).Hit?
        && (forall j :: 0 <= j < i ==> Probe(vehicles[1..][j], query) == Miss);
      assert vehicles[i + 1] == vehicles[1..][i];
      assert forall j :: 1 <= j < i + 1 ==> vehicles[j] == vehicles[1..][j - 1];
    } else {
      assert vehicles[0] == Search(vehicles, query).vehicle;
    }
  }

  /** The search finds nothing exactly when every record is passed over. */
  lemma {:induction false} SearchNotFoundIff(vehicles: seq<Record>, query: string)
    ensures Search(vehicles, query) == NotFound
        <==> forall j :: 0 <= j < |vehicles| ==> Probe(vehicles[j], query) == Miss
    decreases |vehicles|
  {
    if vehicles != [] {
      SearchNotFoundIff(vehicles[1..], query);
      assert forall j :: 1 <= j < |vehicles| ==> vehicles[j] == vehicles[1..][j - 1];
    }
  }

  /** A later record never beats an earlier one: the records appended after
      a prefix only matter when the prefix finds nothing. */
  lemma {:induction false} SearchAppend(front: seq<Record>, back: seq<Record>, query: string)
    ensures Search(front + back, query)
         == if Search(front, query) == NotFound then Search(back, query) else Search(front, query)
    decreases |front|
  {
    if front != [] {
      assert (front + back)[0] == front[0];
      assert (front + back)[1..] == front[1..] + back;
      SearchAppend(front[1..], back, query);
    } else {
      assert front + back == back;
    }
  }

  /** An exact id or hex match on the first record not passed over makes
      the search return that record, whatever its other fields hold. */
  lemma ExactMatchFound(vehicles: seq<Record>, query: string, i: int)
    requires 0 <= i < |vehicles|
    requires forall j :: 0 <= j < i ==> Probe(vehicles[j], query) == Miss
    requires ExactHit(vehicles[i].id, query) || ExactHit(vehicles[i].hex, query)
    ensures Search(vehicles, query) == Found(vehicles[i])
  {
    SearchFirstHit(vehicles, query, i);
  }

  /** A numeric id is never equal to the query text, so it never selects a record. */
  lemma NumericIdNeverMatches(v: Record, query: string)
    requires v.id.Num?
    ensures Probe(v, query) != Hit(ById)
  {
  }

  /** An absent, null or empty field (or any falsy one) is never what selects
      the record, nor what makes the scan raise. */
  lemma FalsyFieldsSkipped(v: Record, query: string)
    ensures !Truthy(v.name) ==> Probe(v, query) != Hit(ByName)
    ensures !Truthy(v.model) ==> Probe(v, query) != Hit(ByModel)
    ensures !Truthy(v.gxt) ==> Probe(v, query) != Hit(ByGxt)
    ensures !Truthy(v.name) && !Truthy(v.model) && !Truthy(v.gxt) ==> Probe(v, query) != Raises
  {
  }

  /** Case does not matter to the name check: if the lower-cased query occurs
      anywhere in the lower-cased name, the name selects the record (unless
      id or hex already did). */
  lemma NameMatchIgnoresCase(v: Record, query: string, at: int)
    requires !ExactHit(v.id, query) && !ExactHit(v.hex, query)
    requires v.name.Str? && v.name.s != ""
    requires OccursAt(Lower(v.name.s), Lower(query), at)
    ensures Probe(v, query) == Hit(ByName)
  {
    ContainsAt(Lower(v.name.s), Lower(query), at);
  }

  /** The model check ignores case in the same way, once the id, hex and
      name checks have passed the record over. */
  lemma ModelMatchIgnoresCase(v: Record, query: string, at: int)
    requires !ExactHit(v.id, query) && !ExactHit(v.hex, query)
    requires SubstringCheck(v.name, Lower(query), ByName) == Miss
    requires v.model.Str? && v.model.s != ""
    requires OccursAt(Lower(v.model.s), Lower(query), at)
    ensures Probe(v, query) == Hit(ByModel)
  {
    ContainsAt(Lower(v.model.s), Lower(query), at);
  }

  /** And so does the gxt check, once the four checks before it have passed
      the record over. */
  lemma GxtMatchIgnoresCase(v: Record, query: string, at: int)
    requires !ExactHit(v.id, query) && !ExactHit(v.hex, query)
    requires SubstringCheck(v.name, Lower(query), ByName) == Miss
    requires SubstringCheck(v.model, Lower(query), ByModel) == Miss
    requires v.gxt.Str? && v.gxt.s != ""
    requires OccursAt(Lower(v.gxt.s), Lower(query), at)
    ensures Probe(v, query) == Hit(ByGxt)
  {
    ContainsAt(Lower(v.gxt.s), Lower(query), at);
  }

  /** Apart from the exact id and hex checks, the search sees the query only
      through its lower-cased form: two queries that lower-case alike find
      the same thing when neither equals an id or hex. */
  lemma {:induction false} SearchCaseInsensitive(vehicles: seq<Record>, q1: string, q2: string)
    requires Lower(q1) == Lower(q2)
    requires forall j :: 0 <= j < |vehicles| ==>
      !ExactHit(vehicles[j].id, q1) && !ExactHit(vehicles[j].hex, q1)
      && !ExactHit(vehicles[j].id, q2) && !ExactHit(vehicles[j].hex, q2)
    ensures Search(vehicles, q1) == Search(vehicles, q2)
    decreases |vehicles|
  {
    if vehicles != [] {
      assert Probe(vehicles[0], q1) == Probe(vehicles[0], q2);
      SearchCaseInsensitive(vehicles[1..], q1, q2);
    }
  }

  /** The empty query is in every non-empty name: the first record with one is found
      (given that no earlier record is selected or raises). */
  lemma EmptyQueryFindsNamedRecord(vehicles: seq<Record>, i: int)
    requires 0 <= i < |vehicles|
    requires forall j :: 0 <= j < i ==> Probe(vehicles[j], "") == Miss
    requires vehicles[i].name.Str? && vehicles[i].name.s != ""
    ensures Search(vehicles, "") == Found(vehicles[i])
  {
    ContainsEmpty(Lower(vehicles[i].name.s));
    SearchFirstHit(vehicles, "", i);
  }

  /** A record some check selects has a present key, so it is a non-empty
      dict, which Python treats as true in `if result:`. */
  lemma SelectedRecordIsTruthy(v: Record, query: string)
    requires Probe(v, query).Hit?
    ensures Present(v.id) || Present(v.hex) || Present(v.name) || Present(v.model) || Present(v.gxt)
  {
  }
}
