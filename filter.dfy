/**
 * The filter/sort store of app/character/filter.tsx (lines 10-96): its state,
 * the actions that move between states, the badge count and the compiler of
 * the state into the query parameters of `GET /characters`.
 *
 * Each list field has three states: `None` is `null` (the "None" checkbox,
 * compiled to `filter[<key>_null]=true`), `Some([])` is no constraint, and a
 * non-empty `Some(values)` matches any of the values.
 */
module Filter {
  import opened Wrappers

  /** `keyof Omit<Filter, "sort">`: the four list fields. */
  datatype ListKey = Gender | House | BloodStatus | Species

  /** The name of a list field, as it appears in the query parameters. */
  function KeyName(key: ListKey): string
  {
    match key
    case Gender => "gender"
    case House => "house"
    case BloodStatus => "blood_status"
    case Species => "species"
  }

  /** A list field: `string[] | null`. */
  type ListField = Option<seq<string>>

  /** The `Filter` type: one snapshot of the store's state. */
  datatype FilterState = FilterState(
    sort: Option<string>,
    gender: ListField,
    house: ListField,
    bloodStatus: ListField,
    species: ListField)
  {
    /** `state[key]`. */
    function Get(key: ListKey): ListField
    {
      match key
      case Gender => gender
      case House => house
      case BloodStatus => bloodStatus
      case Species => species
    }

    /** `{ ...state, [key]: field }`: the merge that `set` performs. */
    function With(key: ListKey, field: ListField): (s: FilterState)
      ensures s.Get(key) == field && s.sort == sort
      ensures forall k :: k != key ==> s.Get(k) == Get(k)
    {
      match key
      case Gender => this.(gender := field)
      case House => this.(house := field)
      case BloodStatus => this.(bloodStatus := field)
      case Species => this.(species := field)
    }
  }

  /** `initialState`: no sort and no constraint on any list field. */
  const InitialState: FilterState := FilterState(None, Some([]), Some([]), Some([]), Some([]))

  /** The truthiness of `state.sort`: neither `null` nor the empty string. */
  predicate SortIsSet(sort: Option<string>)
  {
    sort.Some? && sort.value != ""
  }

  // ---------------------------------------------------------------------------
  // The new values the actions compute
  // ---------------------------------------------------------------------------

  /** `state.sort === sort ? null : sort`. */
  function SortToggled(current: Option<string>, sort: string): Option<string>
  {
    if current == Some(sort) then None else Some(sort)
  }

  /** `list.filter((v) => v !== value)`: every occurrence of `value` removed, the rest in order. */
  function RemoveAll(list: seq<string>, value: string): (r: seq<string>)
    ensures multiset(r) == multiset(list)[value := 0]
    ensures |r| <= |list|
  {
    if list == [] then []
    else
      assert list == [list[0]] + list[1..];
      if list[0] == value then RemoveAll(list[1..], value)
      else [list[0]] + RemoveAll(list[1..], value)
  }

  /** The list that `toggle(key, value)` stores for a field that held `field`. */
  function Toggled(field: ListField, value: string): seq<string>
  {
    match field
    case None => [value]
    case Some(list) =>
      if value in list then RemoveAll(list, value) else list + [value]
  }

  /** `state[key] === null ? [] : null`. */
  function NoneToggled(field: ListField): ListField
  {
    if field == None then Some([]) else None
  }

  // ---------------------------------------------------------------------------
  // Badge count and query parameters
  // ---------------------------------------------------------------------------

  /** `state[key]?.length ?? 1`: `null` counts 1, a list counts its length. */
  function FieldCount(field: ListField): nat
  {
    match field
    case None => 1
    case Some(list) => |list|
  }

  /** What `getFilterCount` returns for a state. */
  function FilterCount(f: FilterState): nat
  {
    (if SortIsSet(f.sort) then 1 else 0)
    + FieldCount(f.gender) + FieldCount(f.house) + FieldCount(f.bloodStatus) + FieldCount(f.species)
  }

  type Param = (string, string)

  /** `filter[<key>_null]`. */
  function NullKey(key: ListKey): string
  {
    "filter[" + KeyName(key) + "_null]"
  }

  /** `filter[<key>_<predicate>][]`. */
  function ValueKey(key: ListKey, pred: string): string
  {
    "filter[" + KeyName(key) + "_" + pred + "][]"
  }

  /** One parameter `name=value` per value, in list order. */
  function ValuePairs(name: string, values: seq<string>): (ps: seq<Param>)
    ensures |ps| == |values|
  {
    seq(|values|, i requires 0 <= i < |values| => (name, values[i]))
  }

  /** What `_filterByList(params, key, predicate)` appends. */
  function FieldParams(key: ListKey, pred: string, field: ListField): seq<Param>
  {
    match field
    case None => [(NullKey(key), "true")]
    case Some(list) => ValuePairs(ValueKey(key, pred), list)
  }

  /** The default of `_filterByList`'s `predicate` parameter. */
  const DefaultPredicate: string := "in_any"

  /** The parameters `getSearchParams` builds for a state, in order. */
  function CompileParams(f: FilterState): seq<Param>
  {
    (if SortIsSet(f.sort) then [("sort", f.sort.value)] else [])
    + FieldParams(Gender, "cont_any", f.gender)
    + FieldParams(House, DefaultPredicate, f.house)
    + FieldParams(BloodStatus, "cont_any", f.bloodStatus)
    + FieldParams(Species, "cont_any", f.species)
  }

  // ---------------------------------------------------------------------------
  // The store
  // ---------------------------------------------------------------------------

  /** `URLSearchParams`: an ordered list of key/value pairs that `append` extends. */
  class UrlSearchParams {
    var pairs: seq<Param>

    constructor ()
      ensures pairs == []
    {
      pairs := [];
    }

    method Append(name: string, value: string)
      modifies this
      ensures pairs == old(pairs) + [(name, value)]
    {
      pairs := pairs + [(name, value)];
    }
  }

  /** The zustand store `useFilterStore`: its fields and its actions. */
  class FilterStore {
    var sort: Option<string>
    var gender: ListField
    var house: ListField
    var bloodStatus: ListField
    var species: ListField

    /** `get()`: the current state. */
    function State(): FilterState
      reads this
    {
      FilterState(sort, gender, house, bloodStatus, species)
    }

    /** `create(...)` starts from `initialState`. */
    constructor ()
      ensures State() == InitialState
    {
      sort := None;
      gender, house, bloodStatus, species := Some([]), Some([]), Some([]), Some([]);
    }

    /** `set({ [key]: field })`. */
    method SetField(key: ListKey, field: ListField)
      modifies this
      ensures State() == old(State()).With(key, field)
    {
      match key
      case Gender => gender := field;
      case House => house := field;
      case BloodStatus => bloodStatus := field;
      case Species => species := field;
    }

    /** `reset`: back to `initialState`. */
    method Reset()
      modifies this
      ensures State() == InitialState
    {
      sort := None;
      gender, house, bloodStatus, species := Some([]), Some([]), Some([]), Some([]);
    }

    /** `toggleSort(sort)`: only `sort` changes. */
    method ToggleSort(s: string)
      modifies this
      ensures State() == old(State()).(sort := SortToggled(old(sort), s))
    {
      sort := if sort == Some(s) then None else Some(s);
    }

    /** `toggle(key, value)`: only the field `key` changes. */
    method Toggle(key: ListKey, value: string)
      modifies this
      ensures State() == old(State()).With(key, Some(Toggled(old(State()).Get(key), value)))
    {
      var current := State().Get(key);
      if current == None {
        SetField(key, Some([value]));
      } else if value in current.value {
        SetField(key, Some(RemoveAll(current.value, value)));
      } else {
        SetField(key, Some(current.value + [value]));
      }
    }

    /** `toggleNone(key)`: only the field `key` changes. */
    method ToggleNone(key: ListKey)
      modifies this
      ensures State() == old(State()).With(key, NoneToggled(old(State()).Get(key)))
    {
      var current := State().Get(key);
      SetField(key, if current == None then Some([]) else None);
    }

    /** `_filterByList(params, key, predicate)`: appends the parameters of one field. */
    method FilterByList(params: UrlSearchParams, key: ListKey, pred: string)
      modifies params
      ensures params.pairs == old(params.pairs) + FieldParams(key, pred, State().Get(key))
    {
      var field := State().Get(key);
      if field == None {
        params.Append(NullKey(key), "true");
      } else if |field.value| > 0 {
        var list := field.value;
        var name := ValueKey(key, pred);
        var i := 0;
        while i < |list|
          invariant 0 <= i <= |list|
          invariant params.pairs == old(params.pairs) + ValuePairs(name, list[..i])
        {
          params.Append(name, list[i]);
          assert ValuePairs(name, list[..i + 1]) == ValuePairs(name, list[..i]) + [(name, list[i])];
          i := i + 1;
        }
        assert list[..i] == list;
      } else {
        assert FieldParams(key, pred, field) == [];
      }
    }

    /** `getFilterCount()`. */
    method GetFilterCount() returns (count: nat)
      ensures count == FilterCount(State())
    {
      count := 0;
      count := count + if SortIsSet(sort) then 1 else 0;
      count := count + FieldCount(gender);
      count := count + FieldCount(house);
      count := count + FieldCount(bloodStatus);
      count := count + FieldCount(species);
    }

    /** `getSearchParams()`: a new `URLSearchParams` holding the compiled state. */
    method GetSearchParams() returns (params: UrlSearchParams)
      ensures fresh(params)
      ensures params.pairs == CompileParams(State())
    {
      params := new UrlSearchParams();
      if SortIsSet(sort) {
        params.Append("sort", sort.value);
      }
      assert params.pairs == SortPart(State());
      CompileParamsIsParts(State());
      FilterByList(params, Gender, "cont_any");
      FilterByList(params, House, DefaultPredicate);
      FilterByList(params, BloodStatus, "cont_any");
      FilterByList(params, Species, "cont_any");
    }
  }

  // ---------------------------------------------------------------------------
  // Reset
  // ---------------------------------------------------------------------------

  /** From the initial state the badge shows 0 and no parameter is emitted. */
  lemma InitialStateIsEmpty()
    ensures InitialState.sort == None
    ensures forall k :: InitialState.Get(k) == Some([])
    ensures FilterCount(InitialState) == 0
    ensures CompileParams(InitialState) == []
  {
  }

  // ---------------------------------------------------------------------------
  // toggleSort
  // ---------------------------------------------------------------------------

  /** `toggleSort(s)` selects `s`, unless `s` is already selected, in which case it clears the sort. */
  lemma SortToggledSelectsOrClears(current: Option<string>, s: string)
    ensures SortToggled(current, s) == None <==> current == Some(s)
    ensures SortToggled(current, s) != None ==> SortToggled(current, s) == Some(s)
  {
  }

  /** Toggling the selected sort, or the sort from none, twice restores the original. */
  lemma SortToggledTwice(current: Option<string>, s: string)
    requires current == None || current == Some(s)
    ensures SortToggled(SortToggled(current, s), s) == current
  {
  }

  /** Toggling a different sort twice does not restore the earlier one: it clears it. */
  lemma SortToggledTwiceForgetsOther(t: string, s: string)
    requires t != s
    ensures SortToggled(SortToggled(Some(t), s), s) == None
  {
  }

  // ---------------------------------------------------------------------------
  // toggle
  // ---------------------------------------------------------------------------

  /** A list without repeated values. */
  predicate Distinct(list: seq<string>)
  {
    forall i, j :: 0 <= i < j < |list| ==> list[i] != list[j]
  }

  /** `value` is gone from the filtered list and every other value keeps its membership. */
  lemma RemoveAllMembership(list: seq<string>, value: string)
    ensures value !in RemoveAll(list, value)
    ensures forall w :: w != value ==> (w in RemoveAll(list, value) <==> w in list)
  {
    var r := RemoveAll(list, value);
    assert value !in multiset(r);
    forall w | w != value
      ensures w in r <==> w in list
    {
      assert w in r <==> w in multiset(r);
      assert w in list <==> w in multiset(list);
    }
  }

  /** Filtering keeps the list's order, so a duplicate-free list stays duplicate-free. */
  lemma {:induction false} RemoveAllKeepsDistinct(list: seq<string>, value: string)
    requires Distinct(list)
    ensures Distinct(RemoveAll(list, value))
  {
    if list != [] {
      assert Distinct(list[1..]);
      RemoveAllKeepsDistinct(list[1..], value);
      if list[0] != value {
        RemoveAllMembership(list[1..], value);
        assert list[0] !in list[1..];
        assert list[0] !in RemoveAll(list[1..], value);
      }
    }
  }

  /** Filtering out a value the list does not hold changes nothing. */
  lemma {:induction false} RemoveAllAbsent(list: seq<string>, value: string)
    requires value !in list
    ensures RemoveAll(list, value) == list
  {
    if list != [] {
      RemoveAllAbsent(list[1..], value);
    }
  }

  /** Filtering distributes over concatenation. */
  lemma {:induction false} RemoveAllAppend(a: seq<string>, b: seq<string>, value: string)
    ensures RemoveAll(a + b, value) == RemoveAll(a, value) + RemoveAll(b, value)
  {
    if a == [] {
      assert a + b == b;
    } else {
      assert (a + b)[1..] == a[1..] + b;
      RemoveAllAppend(a[1..], b, value);
    }
  }

  /**
   * `toggle(key, v)`: from `null` the field becomes exactly `[v]`; on a list,
   * the membership of `v` flips and every other value keeps its membership.
   */
  lemma ToggledMembership(field: ListField, value: string)
    ensures field == None ==> Toggled(field, value) == [value]
    ensures value in Toggled(field, value) <==> (field == None || value !in field.value)
    ensures forall w :: w != value ==> (w in Toggled(field, value) <==> field.Some? && w in field.value)
  {
    if field.Some? {
      RemoveAllMembership(field.value, value);
    }
  }

  /** `toggle` keeps a duplicate-free list duplicate-free. */
  lemma ToggledKeepsDistinct(field: ListField, value: string)
    requires field.Some? ==> Distinct(field.value)
    ensures Distinct(Toggled(field, value))
  {
    if field.Some? {
      var list := field.value;
      if value in list {
        RemoveAllKeepsDistinct(list, value);
      } else {
        assert forall i :: 0 <= i < |list| ==> (list + [value])[i] == list[i];
      }
    }
  }

  /** Adding a value the list does not hold and toggling it again restores the list exactly. */
  lemma ToggledTwiceFromAbsent(list: seq<string>, value: string)
    requires value !in list
    ensures Toggled(Some(Toggled(Some(list), value)), value) == list
  {
    assert value in list + [value];
    RemoveAllAppend(list, [value], value);
    RemoveAllAbsent(list, value);
    assert RemoveAll([value], value) == [];
  }

  /**
   * Removing a value and toggling it again restores the list's values but not
   * its order: the value comes back at the end.
   */
  lemma ToggledTwiceFromPresent(list: seq<string>, value: string)
    requires value in list
    ensures Toggled(Some(Toggled(Some(list), value)), value) == RemoveAll(list, value) + [value]
    ensures multiset(Toggled(Some(Toggled(Some(list), value)), value))
         == multiset(list)[value := 0] + multiset{value}
  {
    RemoveAllMembership(list, value);
  }

  /** From `null`, toggling a value twice leaves `[]`, not `null`. */
  lemma ToggledTwiceFromNull(value: string)
    ensures Toggled(Some(Toggled(None, value)), value) == []
  {
    assert RemoveAll([value], value) == RemoveAll([], value);
  }

  // ---------------------------------------------------------------------------
  // toggleNone
  // ---------------------------------------------------------------------------

  /**
   * `toggleNone` maps `null` to `[]` and every list to `null`; so two
   * applications restore `null` but turn any list, even a non-empty one, into `[]`.
   */
  lemma NoneToggledTwice(field: ListField)
    ensures field == None ==> NoneToggled(field) == Some([])
    ensures field.Some? ==> NoneToggled(field) == None
    ensures field == None ==> NoneToggled(NoneToggled(field)) == None
    ensures field.Some? ==> NoneToggled(NoneToggled(field)) == Some([])
  {
  }

  // ---------------------------------------------------------------------------
  // Badge count against the parameters
  // ---------------------------------------------------------------------------

  /** Every list field emits as many parameters as it adds to the badge. */
  lemma FieldParamsCount(key: ListKey, pred: string, field: ListField)
    ensures |FieldParams(key, pred, field)| == FieldCount(field)
  {
  }

  /** `getSearchParams` emits exactly `getFilterCount()` parameters. */
  lemma ParamCountIsFilterCount(f: FilterState)
    ensures |CompileParams(f)| == FilterCount(f)
  {
    FieldParamsCount(Gender, "cont_any", f.gender);
    FieldParamsCount(House, DefaultPredicate, f.house);
    FieldParamsCount(BloodStatus, "cont_any", f.bloodStatus);
    FieldParamsCount(Species, "cont_any", f.species);
  }

  /** A `null` field counts 1 and `[]` counts 0: three `null` fields and no sort give 3. */
  lemma CountOfNullFields()
    ensures FilterCount(FilterState(None, Some([]), None, None, None)) == 3
  {
  }

  // ---------------------------------------------------------------------------
  // Reading the parameters back
  // ---------------------------------------------------------------------------

  /** The values of every parameter named `name`, in order: `params.getAll(name)`. */
  function ValuesOf(ps: seq<Param>, name: string): (vs: seq<string>)
    ensures |vs| <= |ps|
  {
    if ps == [] then []
    else (if ps[0].0 == name then [ps[0].1] else []) + ValuesOf(ps[1..], name)
  }

  /** `params.has(name)`. */
  predicate Mentions(ps: seq<Param>, name: string)
  {
    exists i :: 0 <= i < |ps| && ps[i].0 == name
  }

  /** How a reader of the parameters recovers one list field. */
  function DecodeField(ps: seq<Param>, key: ListKey, pred: string): ListField
  {
    if Mentions(ps, NullKey(key)) then None else Some(ValuesOf(ps, ValueKey(key, pred)))
  }

  /** How a reader of the parameters recovers the whole state. */
  function DecodeParams(ps: seq<Param>): FilterState
  {
    var sorts := ValuesOf(ps, "sort");
    FilterState(
      if sorts == [] then None else Some(sorts[0]),
      DecodeField(ps, Gender, "cont_any"),
      DecodeField(ps, House, DefaultPredicate),
      DecodeField(ps, BloodStatus, "cont_any"),
      DecodeField(ps, Species, "cont_any"))
  }

  /** The state with an empty sort string read as no sort, which is how `getSearchParams` treats it. */
  function Normalized(f: FilterState): FilterState
  {
    if SortIsSet(f.sort) then f else f.(sort := None)
  }

  /** The parameter names never collide: each one tells which field it belongs to and whether it is the `null` marker. */
  lemma ParamNamesDistinct(k: ListKey, k': ListKey, p: string, p': string)
    ensures NullKey(k) != ValueKey(k', p)
    ensures NullKey(k) == NullKey(k') ==> k == k'
    ensures ValueKey(k, p) == ValueKey(k', p') ==> k == k'
    ensures NullKey(k) != "sort" && ValueKey(k, p) != "sort"
  {
    var n, v, v' := NullKey(k), ValueKey(k, p), ValueKey(k', p');
    assert n[7] == KeyName(k)[0] && v[7] == KeyName(k)[0] && v'[7] == KeyName(k')[0];
    assert NullKey(k')[7] == KeyName(k')[0];
    var w := ValueKey(k', p);
    assert n[|n| - 2] == 'l' && w[|w| - 2] == '[';
  }

  lemma {:induction false} ValuesOfAppend(a: seq<Param>, b: seq<Param>, name: string)
    ensures ValuesOf(a + b, name) == ValuesOf(a, name) + ValuesOf(b, name)
  {
    if a == [] {
      assert a + b == b;
    } else {
      assert (a + b)[1..] == a[1..] + b;
      ValuesOfAppend(a[1..], b, name);
    }
  }

  lemma MentionsAppend(a: seq<Param>, b: seq<Param>, name: string)
    ensures Mentions(a + b, name) <==> Mentions(a, name) || Mentions(b, name)
  {
    if Mentions(a, name) {
      var i :| 0 <= i < |a| && a[i].0 == name;
      assert (a + b)[i].0 == name;
    }
    if Mentions(b, name) {
      var i :| 0 <= i < |b| && b[i].0 == name;
      assert (a + b)[|a| + i].0 == name;
    }
    if Mentions(a + b, name) {
      var i :| 0 <= i < |a + b| && (a + b)[i].0 == name;
      if i < |a| {
        assert a[i].0 == name;
      } else {
        assert b[i - |a|].0 == name;
      }
    }
  }

  lemma {:induction false} ValuesOfValuePairs(n: string, values: seq<string>, name: string)
    ensures ValuesOf(ValuePairs(n, values), name) == if n == name then values else []
    ensures Mentions(ValuePairs(n, values), name) <==> n == name && values != []
  {
    var ps := ValuePairs(n, values);
    if values != [] {
      assert ps[1..] == ValuePairs(n, values[1..]);
      ValuesOfValuePairs(n, values[1..], name);
      assert values == [values[0]] + values[1..];
      assert ps[0].0 == n;
    }
  }

  /** What one field's parameters tell a reader about a name. */
  lemma FieldParamsRead(key: ListKey, pred: string, field: ListField, name: string)
    ensures ValuesOf(FieldParams(key, pred, field), name)
         == if field.Some? && name == ValueKey(key, pred) then field.value
            else if field == None && name == NullKey(key) then ["true"]
            else []
    ensures Mentions(FieldParams(key, pred, field), name)
        <==> (field == None && name == NullKey(key)) || (field.Some? && field.value != [] && name == ValueKey(key, pred))
  {
    if field.Some? {
      ValuesOfValuePairs(ValueKey(key, pred), field.value, name);
    } else {
      assert FieldParams(key, pred, field)[1..] == [];
    }
  }

  /** The predicate `getSearchParams` compiles a field with. */
  function PredicateOf(key: ListKey): string
  {
    if key == House then DefaultPredicate else "cont_any"
  }

  /** The parameters of one field, as `getSearchParams` compiles it. */
  function FieldPart(f: FilterState, key: ListKey): seq<Param>
  {
    FieldParams(key, PredicateOf(key), f.Get(key))
  }

  /** The sort parameter, if any. */
  function SortPart(f: FilterState): seq<Param>
  {
    if SortIsSet(f.sort) then [("sort", f.sort.value)] else []
  }

  /** The parameters are the sort part followed by the parts of the four fields. */
  lemma CompileParamsIsParts(f: FilterState)
    ensures CompileParams(f)
         == SortPart(f) + FieldPart(f, Gender) + FieldPart(f, House) + FieldPart(f, BloodStatus) + FieldPart(f, Species)
  {
  }

  /** Reading a name from the parameters reads it from the sort part and from each field's part. */
  lemma CompileParamsParts(f: FilterState, name: string)
    ensures ValuesOf(CompileParams(f), name)
         == ValuesOf(SortPart(f), name)
          + ValuesOf(FieldPart(f, Gender), name)
          + ValuesOf(FieldPart(f, House), name)
          + ValuesOf(FieldPart(f, BloodStatus), name)
          + ValuesOf(FieldPart(f, Species), name)
    ensures Mentions(CompileParams(f), name)
        <==> (Mentions(SortPart(f), name)
          || Mentions(FieldPart(f, Gender), name)
          || Mentions(FieldPart(f, House), name)
          || Mentions(FieldPart(f, BloodStatus), name)
          || Mentions(FieldPart(f, Species), name))
  {
    var s0, g, h, b, sp := SortPart(f), FieldPart(f, Gender), FieldPart(f, House), FieldPart(f, BloodStatus), FieldPart(f, Species);
    CompileParamsIsParts(f);
    ValuesOfAppend(s0, g, name);
    ValuesOfAppend(s0 + g, h, name);
    ValuesOfAppend(s0 + g + h, b, name);
    ValuesOfAppend(s0 + g + h + b, sp, name);
    MentionsAppend(s0, g, name);
    MentionsAppend(s0 + g, h, name);
    MentionsAppend(s0 + g + h, b, name);
    MentionsAppend(s0 + g + h + b, sp, name);
  }

  /** A field's parameters say nothing about the names of another field. */
  lemma OtherFieldSilent(f: FilterState, k: ListKey, key: ListKey, name: string)
    requires k != key
    requires name == NullKey(key) || name == ValueKey(key, PredicateOf(key))
    ensures ValuesOf(FieldPart(f, k), name) == []
    ensures !Mentions(FieldPart(f, k), name)
  {
    ParamNamesDistinct(k, key, PredicateOf(k), PredicateOf(key));
    ParamNamesDistinct(key, k, PredicateOf(key), PredicateOf(k));
    FieldParamsRead(k, PredicateOf(k), f.Get(k), name);
  }

  /** The sort part says nothing about the names of a field. */
  lemma SortPartSilent(f: FilterState, key: ListKey, name: string)
    requires name == NullKey(key) || name == ValueKey(key, PredicateOf(key))
    ensures ValuesOf(SortPart(f), name) == []
    ensures !Mentions(SortPart(f), name)
  {
    ParamNamesDistinct(key, key, PredicateOf(key), PredicateOf(key));
  }

  /** A name that belongs to the field `key` is read from that field's parameters alone. */
  lemma FieldNameRead(f: FilterState, key: ListKey, name: string)
    requires name == NullKey(key) || name == ValueKey(key, PredicateOf(key))
    ensures ValuesOf(CompileParams(f), name) == ValuesOf(FieldPart(f, key), name)
    ensures Mentions(CompileParams(f), name) <==> Mentions(FieldPart(f, key), name)
  {
    CompileParamsParts(f, name);
    SortPartSilent(f, key, name);
    var s0 := ValuesOf(SortPart(f), name);
    var g, h := ValuesOf(FieldPart(f, Gender), name), ValuesOf(FieldPart(f, House), name);
    var b, sp := ValuesOf(FieldPart(f, BloodStatus), name), ValuesOf(FieldPart(f, Species), name);
    match key {
      case Gender =>
        OtherFieldSilent(f, House, key, name);
        OtherFieldSilent(f, BloodStatus, key, name);
        OtherFieldSilent(f, Species, key, name);
        assert s0 + g + h + b + sp == g;
      case House =>
        OtherFieldSilent(f, Gender, key, name);
        OtherFieldSilent(f, BloodStatus, key, name);
        OtherFieldSilent(f, Species, key, name);
        assert s0 + g + h + b + sp == h;
      case BloodStatus =>
        OtherFieldSilent(f, Gender, key, name);
        OtherFieldSilent(f, House, key, name);
        OtherFieldSilent(f, Species, key, name);
        assert s0 + g + h + b + sp == b;
      case Species =>
        OtherFieldSilent(f, Gender, key, name);
        OtherFieldSilent(f, House, key, name);
        OtherFieldSilent(f, BloodStatus, key, name);
        assert s0 + g + h + b + sp == sp;
    }
  }

  /** Every list field, the `null` marker included, is recovered from the parameters. */
  lemma DecodeFieldOfCompiled(f: FilterState, key: ListKey)
    ensures DecodeField(CompileParams(f), key, PredicateOf(key)) == f.Get(key)
  {
    var pred := PredicateOf(key);
    ParamNamesDistinct(key, key, pred, pred);
    FieldNameRead(f, key, NullKey(key));
    FieldNameRead(f, key, ValueKey(key, pred));
    FieldParamsRead(key, pred, f.Get(key), NullKey(key));
    FieldParamsRead(key, pred, f.Get(key), ValueKey(key, pred));
  }

  /** No field's parameters are named `sort`. */
  lemma FieldPartHasNoSort(f: FilterState, k: ListKey)
    ensures ValuesOf(FieldPart(f, k), "sort") == []
  {
    ParamNamesDistinct(k, k, PredicateOf(k), PredicateOf(k));
    FieldParamsRead(k, PredicateOf(k), f.Get(k), "sort");
  }

  /** The sort is recovered from the parameters, an empty sort string as no sort. */
  lemma DecodeSortOfCompiled(f: FilterState)
    ensures DecodeParams(CompileParams(f)).sort == Normalized(f).sort
  {
    CompileParamsParts(f, "sort");
    FieldPartHasNoSort(f, Gender);
    FieldPartHasNoSort(f, House);
    FieldPartHasNoSort(f, BloodStatus);
    FieldPartHasNoSort(f, Species);
  }

  /**
   * `getSearchParams` loses nothing but an empty sort string: a reader of the
   * parameters recovers the sort and every field, and tells a `null` field
   * from an empty one.
   */
  lemma DecodeCompiledParams(f: FilterState)
    ensures DecodeParams(CompileParams(f)) == Normalized(f)
  {
    DecodeSortOfCompiled(f);
    DecodeFieldOfCompiled(f, Gender);
    DecodeFieldOfCompiled(f, House);
    DecodeFieldOfCompiled(f, BloodStatus);
    DecodeFieldOfCompiled(f, Species);
  }

  /** Two states that differ other than in an empty sort string compile to different parameters. */
  lemma CompileParamsInjective(f: FilterState, g: FilterState)
    requires CompileParams(f) == CompileParams(g)
    ensures Normalized(f) == Normalized(g)
  {
    DecodeCompiledParams(f);
    DecodeCompiledParams(g);
  }

  /** Two species and nothing else selected: two `filter[species_cont_any][]` parameters, in order. */
  lemma CompileTwoSpecies()
    ensures CompileParams(InitialState.(species := Some(["Human", "Goblin"])))
         == [("filter[species_cont_any][]", "Human"), ("filter[species_cont_any][]", "Goblin")]
  {
    var f := InitialState.(species := Some(["Human", "Goblin"]));
    var name := ValueKey(Species, "cont_any");
    assert name == "filter[species_cont_any][]";
    assert FieldParams(Species, "cont_any", f.species) == [(name, "Human"), (name, "Goblin")];
  }
}
