/**
 * The workers list page (web/lib/components/worker/WorkersClientPage.tsx): the flags and
 * search text kept in the URL, the full-text index of workers, and the three-stage
 * filter that produces the visible list. `normalizeString` and `toLowerCase` are
 * parameters.
 */
module WorkersClientPage {
  import opened Wrappers
  import opened Seqs
  import opened JsMap
  import opened Helpers

  // ---------------------------------------------------------------- query parameters

  /** `getBoolean(value)`: case-sensitive, and false for every other string. */
  function GetBoolean(value: string): (b: bool)
    ensures b <==> value in {"true", "1", "ano", "yes"}
  {
    match value
    case "true" => true
    case "1" => true
    case "ano" => true
    case "yes" => true
    case _ => false
  }

  /** `${flag}` */
  function BoolText(b: bool): string {
    if b then "true" else "false"
  }

  /** What `getBoolean` makes of a flag written as text. */
  lemma GetBooleanOfBoolText(b: bool)
    ensures GetBoolean(BoolText(b)) == b
  {
  }

  /** The filter state of the page. */
  datatype PageState = PageState(filter: string, onlyStrong: bool, onlyWithCar: bool)

  /** The query string `router.replace` writes, as the map `URLSearchParams` reads back. */
  function QueryOf(s: PageState): map<string, string> {
    map["onlyStrong" := BoolText(s.onlyStrong), "onlyWithCar" := BoolText(s.onlyWithCar), "search" := s.filter]
  }

  /** `searchParams?.get(key)` */
  function Param(params: map<string, string>, key: string): (r: Option<string>)
    ensures r.Some? <==> key in params
  {
    if key in params then Some(params[key]) else None
  }

  /** `q ? getBoolean(q) : false`: a missing or empty parameter is false. */
  function FlagFrom(q: Option<string>): (b: bool)
    ensures b <==> q.Some? && GetBoolean(q.value)
  {
    match q
    case None => false
    case Some(v) => if v == "" then false else GetBoolean(v)
  }

  /** The initial state as written: the flags are read from `area` and `day`. */
  function InitialStateAsWritten(params: map<string, string>): PageState {
    PageState(Param(params, "search").GetOr(""), FlagFrom(Param(params, "area")), FlagFrom(Param(params, "day")))
  }

  /** Reloading the page the effect has written drops both flags. */
  lemma ReloadDropsFlagsAsWritten()
    ensures InitialStateAsWritten(QueryOf(PageState("", true, true))) == PageState("", false, false)
  {
    assert "area" !in QueryOf(PageState("", true, true));
    assert "day" !in QueryOf(PageState("", true, true));
  }

  /** The initial state reading the keys the effect writes. */
  function InitialState(params: map<string, string>): PageState {
    PageState(Param(params, "search").GetOr(""), FlagFrom(Param(params, "onlyStrong")), FlagFrom(Param(params, "onlyWithCar")))
  }

  /** With the keys matched, a reload restores the state the URL was written from. */
  lemma QueryRoundTrip(s: PageState)
    ensures InitialState(QueryOf(s)) == s
  {
    GetBooleanOfBoolText(s.onlyStrong);
    GetBooleanOfBoolText(s.onlyWithCar);
  }

  // ---------------------------------------------------------------- full-text index

  datatype Worker = Worker(
    id: string,
    firstName: string,
    lastName: string,
    phone: string,
    email: string,
    isStrong: bool,
    cars: nat)

  /** `worker.firstName + worker.lastName + worker.phone + worker.email` */
  function SearchText(w: Worker): string {
    w.firstName + w.lastName + w.phone + w.email
  }

  /** The `map.set` calls of `getFulltextData`, in order. */
  function FulltextEntries(workers: seq<Worker>, normalize: string -> string): (es: seq<(string, string)>)
    ensures |es| == |workers|
    ensures forall i :: 0 <= i < |workers| ==> es[i] == (workers[i].id, normalize(SearchText(workers[i])))
  {
    seq(|workers|, i requires 0 <= i < |workers| => (workers[i].id, normalize(SearchText(workers[i]))))
  }

  /** `getFulltextData(workers)`: `forEach` worker, `map.set(id, normalized text)`. */
  method GetFulltextData(workers: Option<seq<Worker>>, normalize: string -> string)
    returns (m: OrderedMap<string, string>)
    ensures m == FromEntries(FulltextEntries(workers.GetOr([]), normalize))
  {
    var ws := workers.GetOr([]);
    ghost var es := FulltextEntries(ws, normalize);
    m := OrderedMap([], map[]);
    for i := 0 to |ws|
      invariant m == FromEntries(es[..i])
    {
      assert es[..i + 1][..i] == es[..i];
      m := m.Set(ws[i].id, normalize(SearchText(ws[i])));
    }
    assert es[..|ws|] == es;
  }

  /**
   * The index has an entry for exactly the ids of the workers, and the entry of an id is
   * the normalized text of the last worker with that id.
   */
  lemma FulltextDataSpec(workers: seq<Worker>, normalize: string -> string, id: string)
    ensures var m := FromEntries(FulltextEntries(workers, normalize));
      id in m.entries <==> exists i :: 0 <= i < |workers| && workers[i].id == id
    ensures var m := FromEntries(FulltextEntries(workers, normalize));
      id in m.entries ==>
        exists i :: 0 <= i < |workers| && workers[i].id == id
          && m.entries[id] == normalize(SearchText(workers[i]))
          && forall j :: i < j < |workers| ==> workers[j].id != id
  {
    var es := FulltextEntries(workers, normalize);
    FromEntriesKeys(es);
    assert id in KeysOf(es) <==> exists i :: 0 <= i < |workers| && workers[i].id == id by {
      if id in KeysOf(es) {
        var i :| 0 <= i < |KeysOf(es)| && KeysOf(es)[i] == id;
        assert workers[i].id == id;
      }
      if exists i :: 0 <= i < |workers| && workers[i].id == id {
        var i :| 0 <= i < |workers| && workers[i].id == id;
        assert KeysOf(es)[i] == id;
      }
    }
    if id in FromEntries(es).entries {
      FromEntriesLastWins(es, id);
      var i :| 0 <= i < |es| && es[i] == (id, FromEntries(es).entries[id])
               && forall j :: i < j < |es| ==> es[j].0 != id;
      assert forall j :: i < j < |workers| ==> workers[j].id != id by {
        forall j | i < j < |workers| ensures workers[j].id != id {
          assert es[j].0 == workers[j].id;
        }
      }
    }
  }

  // ---------------------------------------------------------------- filterWorkers

  /** The first stage: with a search text, keep workers whose indexed text contains it, or who have no entry. */
  function TextStage(text: string, searchable: OrderedMap<string, string>, toLower: string -> string): Worker -> bool {
    (w: Worker) => |text| == 0 || match searchable.Get(w.id) { case None => true case Some(s) => Includes(s, toLower(text)) }
  }

  function StrongStage(onlyStrong: bool): Worker -> bool {
    (w: Worker) => !onlyStrong || w.isStrong
  }

  function CarStage(onlyWithCar: bool): Worker -> bool {
    (w: Worker) => !onlyWithCar || w.cars > 0
  }

  /** `filterWorkers(text, searchable, onlyStrong, onlyWithCar, workers)` */
  function FilterWorkers(text: string, searchable: OrderedMap<string, string>, onlyStrong: bool, onlyWithCar: bool,
                         workers: Option<seq<Worker>>, toLower: string -> string): (r: seq<Worker>)
    ensures workers.None? ==> r == []
  {
    match workers
    case None => []
    case Some(ws) =>
      Filter(Filter(Filter(ws, TextStage(text, searchable, toLower)), StrongStage(onlyStrong)), CarStage(onlyWithCar))
  }

  /**
   * A worker is listed exactly when it is in the input and passes the three stages, as
   * often as the input lists it; the list keeps the input's order; with the flags set,
   * every listed worker is strong and has a car.
   */
  lemma FilterWorkersSpec(text: string, searchable: OrderedMap<string, string>, onlyStrong: bool, onlyWithCar: bool,
                          workers: seq<Worker>, toLower: string -> string, w: Worker)
    ensures var r := FilterWorkers(text, searchable, onlyStrong, onlyWithCar, Some(workers), toLower);
      w in r <==>
        && w in workers
        && (|text| == 0 || searchable.Get(w.id).None? || Includes(searchable.Get(w.id).value, toLower(text)))
        && (!onlyStrong || w.isStrong)
        && (!onlyWithCar || w.cars > 0)
    ensures var r := FilterWorkers(text, searchable, onlyStrong, onlyWithCar, Some(workers), toLower);
      multiset(r)[w] ==
        if && (|text| == 0 || searchable.Get(w.id).None? || Includes(searchable.Get(w.id).value, toLower(text)))
           && (!onlyStrong || w.isStrong)
           && (!onlyWithCar || w.cars > 0)
        then multiset(workers)[w] else 0
    ensures Subseq(FilterWorkers(text, searchable, onlyStrong, onlyWithCar, Some(workers), toLower), workers)
  {
    var s1 := Filter(workers, TextStage(text, searchable, toLower));
    var s2 := Filter(s1, StrongStage(onlyStrong));
    var s3 := Filter(s2, CarStage(onlyWithCar));
    FilterMembership(workers, TextStage(text, searchable, toLower), w);
    FilterMembership(s1, StrongStage(onlyStrong), w);
    FilterMembership(s2, CarStage(onlyWithCar), w);
    FilterMultiset(workers, TextStage(text, searchable, toLower), w);
    FilterMultiset(s1, StrongStage(onlyStrong), w);
    FilterMultiset(s2, CarStage(onlyWithCar), w);
    FilterSubseq(workers, TextStage(text, searchable, toLower));
    FilterSubseq(s1, StrongStage(onlyStrong));
    FilterSubseq(s2, CarStage(onlyWithCar));
    SubseqTrans(s2, s1, workers);
    SubseqTrans(s3, s2, workers);
  }

  /** With no search text and no flag, every worker is listed, in order. */
  lemma FilterWorkersKeepsAll(searchable: OrderedMap<string, string>, workers: seq<Worker>, toLower: string -> string)
    ensures FilterWorkers("", searchable, false, false, Some(workers), toLower) == workers
  {
    FilterKeepsAll(workers, TextStage("", searchable, toLower));
    FilterKeepsAll(workers, StrongStage(false));
    FilterKeepsAll(workers, CarStage(false));
  }

  // ---------------------------------------------------------------- the page

  /** `s.trimEnd()` */
  function TrimEnd(s: string): (r: string)
    ensures r <= s
    ensures |r| > 0 ==> !IsWhitespace(r[|r| - 1])
    ensures forall i :: |r| <= i < |s| ==> IsWhitespace(s[i])
  {
    if s != [] && IsWhitespace(s[|s| - 1]) then TrimEnd(s[..|s| - 1]) else s
  }

  /** `filteredData`: the list shown for the page state and the loaded workers. */
  function VisibleWorkers(state: PageState, data: Option<seq<Worker>>,
                          normalize: string -> string, toLower: string -> string): seq<Worker> {
    FilterWorkers(TrimEnd(normalize(state.filter)), FromEntries(FulltextEntries(data.GetOr([]), normalize)),
                  state.onlyStrong, state.onlyWithCar, data, toLower)
  }

  /** With the parameter keys matched, reloading the page shows the same workers. */
  lemma ReloadShowsSameWorkers(state: PageState, data: Option<seq<Worker>>,
                               normalize: string -> string, toLower: string -> string)
    ensures VisibleWorkers(InitialState(QueryOf(state)), data, normalize, toLower)
         == VisibleWorkers(state, data, normalize, toLower)
  {
    QueryRoundTrip(state);
  }
}
