/** The puppy catalog service over an in-memory store: the `findAll` filter
    builder and its evaluation, the breed facet of `getFilters`, the by-id
    operations `findOne`, `create`, `update` and `delete`, and the
    destructive `seedData`. Every operation is a pure function of the store
    (and its input); the writes return the new store beside their answer. */
module Puppies {
  import opened Results
  import opened Text
  import opened PuppySchema

  /** The puppies collection in its natural (insertion) order, and the next
      fresh id the store hands out. */
  datatype Store = Store(puppies: seq<Puppy>, nextId: nat)

  /** The store a write leaves behind, and what the write answers. */
  datatype Reply<T> = Reply(store: Store, value: T)

  predicate UniqueIds(ps: seq<Puppy>) {
    forall i, j :: 0 <= i < j < |ps| ==> ps[i].id != ps[j].id
  }

  /** The invariant every operation keeps: ids are unique and below the
      counter, and every stored value went through its setters. */
  predicate Valid(s: Store) {
    && UniqueIds(s.puppies)
    && (forall i :: 0 <= i < |s.puppies| ==> s.puppies[i].id < s.nextId)
    && (forall i :: 0 <= i < |s.puppies| ==> Normalized(s.puppies[i]))
  }

  /** Every stored record would also pass the schema's validators. */
  predicate Conforming(s: Store) {
    Valid(s) && forall i :: 0 <= i < |s.puppies| ==> Conforms(s.puppies[i])
  }

  predicate HasId(s: Store, id: nat) {
    exists i :: 0 <= i < |s.puppies| && s.puppies[i].id == id
  }

  /** `a` is `b` with some elements left out, the rest in the same order. */
  predicate SubsequenceOf<T(==)>(a: seq<T>, b: seq<T>)
    decreases |b|
  {
    a == [] || (b != [] && ((a[0] == b[0] && SubsequenceOf(a[1..], b[1..])) || SubsequenceOf(a, b[1..])))
  }

  // ---------------------------------------------------------------------
  // findAll
  // ---------------------------------------------------------------------

  /** The optional search criteria of `findAll`. */
  datatype SearchFilter = SearchFilter(
    search: Option<string>,
    breed: Option<string>,
    age: Option<int>,
    size: Option<string>,
    gender: Option<string>)

  const NoFilter := SearchFilter(None, None, None, None, None)

  /** JavaScript truthiness of an optional criterion: absent, "" and 0 are
      falsy and impose nothing. */
  predicate Given(v: Option<string>) {
    v.Some? && v.value != ""
  }

  predicate AgeGiven(v: Option<int>) {
    v.Some? && v.value != 0
  }

  /** One case-insensitive `$regex` alternative of the `$or` clause. */
  datatype Clause = NameLike(text: string) | BreedLike(text: string)

  /** The filter document `findAll` hands to the store: optional equality
      conditions and the `$or` alternatives (`[]` when the document has no
      `$or` key). */
  datatype Query = Query(
    breed: Option<string>,
    age: Option<int>,
    size: Option<string>,
    gender: Option<string>,
    anyOf: seq<Clause>)

  /** The filter document the store evaluates: the service turns the search
      text into a name-or-breed alternative, lower-cases the equality
      criteria and skips falsy ones; the store's query cast then runs each
      path's setters on the equality values, so the breed value is also
      trimmed. Every equality value is therefore in stored form. */
  function BuildQuery(f: SearchFilter): (q: Query)
    ensures q.breed.Some? ==> IsLowercase(q.breed.value) && IsTrimmed(q.breed.value)
    ensures q.size.Some? ==> IsLowercase(q.size.value)
    ensures q.gender.Some? ==> IsLowercase(q.gender.value)
  {
    SettersNormalize(Lower(f.breed.GetOr("")));
    Query(
      if Given(f.breed) then Some(SetBreed(Lower(f.breed.value))) else None,
      if AgeGiven(f.age) then f.age else None,
      if Given(f.size) then Some(SetSize(Lower(f.size.value))) else None,
      if Given(f.gender) then Some(SetGender(Lower(f.gender.value))) else None,
      if Given(f.search) then [NameLike(f.search.value), BreedLike(f.search.value)] else [])
  }

  predicate ClauseHolds(c: Clause, p: Puppy) {
    match c
    case NameLike(t) => ContainsIgnoringCase(p.name, t)
    case BreedLike(t) => ContainsIgnoringCase(p.breed, t)
  }

  /** How the store evaluates a filter document on one record: every
      equality condition holds, and some `$or` alternative holds if there
      are any. A record without an age never equals a given age. */
  predicate Matches(q: Query, p: Puppy) {
    && (q.breed.Some? ==> p.breed == q.breed.value)
    && (q.age.Some? ==> p.age.Some? && p.age.value == q.age.value)
    && (q.size.Some? ==> p.size == q.size.value)
    && (q.gender.Some? ==> p.gender == q.gender.value)
    && (q.anyOf == [] || exists i :: 0 <= i < |q.anyOf| && ClauseHolds(q.anyOf[i], p))
  }

  /** The selection rule stated on the criteria themselves: the search text
      occurs in the name or in the breed ignoring case, the breed equals the
      trimmed, lower-cased breed criterion, and size and gender equal their
      lower-cased criteria. */
  predicate Selected(f: SearchFilter, p: Puppy) {
    && (Given(f.search) ==>
          ContainsIgnoringCase(p.name, f.search.value) || ContainsIgnoringCase(p.breed, f.search.value))
    && (Given(f.breed) ==> p.breed == Lower(Trim(f.breed.value)))
    && (AgeGiven(f.age) ==> p.age == f.age)
    && (Given(f.size) ==> p.size == Lower(f.size.value))
    && (Given(f.gender) ==> p.gender == Lower(f.gender.value))
  }

  /** The document the service builds selects exactly what the rule says. */
  lemma QueryMeansSelected(f: SearchFilter)
    ensures forall p :: Matches(BuildQuery(f), p) <==> Selected(f, p)
  {
    if f.breed.Some? { LowerTrimLower(f.breed.value); }
    if f.size.Some? { LowerIdempotent(f.size.value); }
    if f.gender.Some? { LowerIdempotent(f.gender.value); }
    forall p ensures Matches(BuildQuery(f), p) <==> Selected(f, p) {
      var q := BuildQuery(f);
      if Given(f.search) {
        assert ClauseHolds(q.anyOf[0], p) <==> ContainsIgnoringCase(p.name, f.search.value);
        assert ClauseHolds(q.anyOf[1], p) <==> ContainsIgnoringCase(p.breed, f.search.value);
      }
    }
  }

  /** The records of `ps` a filter document selects, in their store order. */
  function Select(q: Query, ps: seq<Puppy>): (r: seq<Puppy>)
    ensures forall p :: p in r ==> p in ps && Matches(q, p)
    ensures forall p :: p in ps && Matches(q, p) ==> p in r
    ensures SubsequenceOf(r, ps)
    ensures forall p :: multiset(r)[p] == if Matches(q, p) then multiset(ps)[p] else 0
  {
    if ps == [] then []
    else
      assert ps == [ps[0]] + ps[1..];
      if Matches(q, ps[0]) then [ps[0]] + Select(q, ps[1..])
      else Select(q, ps[1..])
  }

  /** `findAll`: exactly the stored records the criteria select, each as
      often as it is stored, as an order-preserving subsequence of the
      store. The store is only read. */
  function FindAll(s: Store, f: SearchFilter): (r: seq<Puppy>)
    ensures forall p :: p in r <==> p in s.puppies && Selected(f, p)
    ensures forall p :: multiset(r)[p] == if Selected(f, p) then multiset(s.puppies)[p] else 0
    ensures SubsequenceOf(r, s.puppies)
  {
    QueryMeansSelected(f);
    Select(BuildQuery(f), s.puppies)
  }

  lemma {:induction false} SelectEverything(q: Query, ps: seq<Puppy>)
    requires forall p :: p in ps ==> Matches(q, p)
    ensures Select(q, ps) == ps
  {
    if ps != [] {
      SelectEverything(q, ps[1..]);
    }
  }

  /** Without criteria `findAll` returns the whole store in store order. */
  lemma FindAllWithoutFilter(s: Store)
    ensures FindAll(s, NoFilter) == s.puppies
  {
    SelectEverything(BuildQuery(NoFilter), s.puppies);
  }

  /** Documents that select the same records select the same list. */
  lemma {:induction false} SelectCongruent(q1: Query, q2: Query, ps: seq<Puppy>)
    requires forall p :: Matches(q1, p) <==> Matches(q2, p)
    ensures Select(q1, ps) == Select(q2, ps)
  {
    if ps != [] {
      SelectCongruent(q1, q2, ps[1..]);
    }
  }

  /** The criteria with their text lower-cased, as a caller who folded the
      case first would send them. */
  function LowerCasedFilter(f: SearchFilter): SearchFilter {
    f.(search := if f.search.Some? then Some(Lower(f.search.value)) else None,
       breed := if f.breed.Some? then Some(Lower(f.breed.value)) else None,
       size := if f.size.Some? then Some(Lower(f.size.value)) else None,
       gender := if f.gender.Some? then Some(Lower(f.gender.value)) else None)
  }

  /** Filtering is case-insensitive end to end: criteria in any case give
      the same answer as their lower-case form ("gREYhouND" as
      "greyhound"). */
  lemma FindAllIgnoresCase(s: Store, f: SearchFilter)
    ensures FindAll(s, LowerCasedFilter(f)) == FindAll(s, f)
  {
    var g := LowerCasedFilter(f);
    var qf, qg := BuildQuery(f), BuildQuery(g);
    if f.breed.Some? { LowerIdempotent(f.breed.value); }
    if f.size.Some? { LowerIdempotent(f.size.value); }
    if f.gender.Some? { LowerIdempotent(f.gender.value); }
    assert qg.breed == qf.breed && qg.age == qf.age && qg.size == qf.size && qg.gender == qf.gender;
    forall p ensures Matches(qg, p) <==> Matches(qf, p) {
      if Given(f.search) {
        ContainsIgnoresNeedleCase(p.name, f.search.value);
        ContainsIgnoresNeedleCase(p.breed, f.search.value);
        assert ClauseHolds(qg.anyOf[0], p) <==> ClauseHolds(qf.anyOf[0], p);
        assert ClauseHolds(qg.anyOf[1], p) <==> ClauseHolds(qf.anyOf[1], p);
      }
    }
    SelectCongruent(qg, qf, s.puppies);
  }

  /** The store trims the breed criterion itself, so surrounding white
      space in it changes nothing (" Greyhound " selects the greyhounds),
      as long as something is left after trimming. */
  lemma FindAllTrimsBreed(s: Store, f: SearchFilter)
    requires f.breed.Some? && Trim(f.breed.value) != ""
    ensures FindAll(s, f.(breed := Some(Trim(f.breed.value)))) == FindAll(s, f)
  {
    var g := f.(breed := Some(Trim(f.breed.value)));
    TrimIdempotent(f.breed.value);
    assert f.breed.value != "";
    QueryMeansSelected(f);
    QueryMeansSelected(g);
    SelectCongruent(BuildQuery(g), BuildQuery(f), s.puppies);
  }

  /** The criteria with every falsy value dropped. */
  function DropFalsy(f: SearchFilter): SearchFilter {
    SearchFilter(
      if Given(f.search) then f.search else None,
      if Given(f.breed) then f.breed else None,
      if AgeGiven(f.age) then f.age else None,
      if Given(f.size) then f.size else None,
      if Given(f.gender) then f.gender else None)
  }

  /** An empty string or an age of 0 constrains nothing: such criteria
      answer as if they were absent. */
  lemma FindAllIgnoresFalsy(s: Store, f: SearchFilter)
    ensures FindAll(s, DropFalsy(f)) == FindAll(s, f)
  {
    assert BuildQuery(DropFalsy(f)) == BuildQuery(f);
  }

  // ---------------------------------------------------------------------
  // getFilters
  // ---------------------------------------------------------------------

  /** The filter options offered to clients. */
  datatype FilterOptions = FilterOptions(breeds: seq<string>)

  predicate NoDuplicates<T(==)>(xs: seq<T>) {
    forall i, j :: 0 <= i < j < |xs| ==> xs[i] != xs[j]
  }

  predicate HasBreed(s: Store, b: string) {
    exists i :: 0 <= i < |s.puppies| && s.puppies[i].breed == b
  }

  /** `getFilters`: the distinct breeds of the store, each present breed
      exactly once and no absent one. The order is left to the store; this
      model lists them by first occurrence. */
  method GetFilters(s: Store) returns (options: FilterOptions)
    ensures NoDuplicates(options.breeds)
    ensures forall b :: b in options.breeds <==> HasBreed(s, b)
  {
    var breeds: seq<string> := [];
    var i := 0;
    while i < |s.puppies|
      invariant 0 <= i <= |s.puppies|
      invariant NoDuplicates(breeds)
      invariant forall b :: b in breeds <==> exists k :: 0 <= k < i && s.puppies[k].breed == b
    {
      var b := s.puppies[i].breed;
      if b !in breeds {
        breeds := breeds + [b];
      }
      i := i + 1;
    }
    options := FilterOptions(breeds);
  }

  // ---------------------------------------------------------------------
  // findOne, create, update, delete
  // ---------------------------------------------------------------------

  /** Position of the record with `id`, the first one if several had it. */
  function IndexOf(ps: seq<Puppy>, id: nat): (r: Option<nat>)
    ensures r.Some? ==> r.value < |ps| && ps[r.value].id == id
    ensures r.Some? ==> forall j :: 0 <= j < r.value ==> ps[j].id != id
    ensures r.None? ==> forall j :: 0 <= j < |ps| ==> ps[j].id != id
  {
    if ps == [] then None
    else if ps[0].id == id then Some(0)
    else match IndexOf(ps[1..], id)
      case None => None
      case Some(k) => Some(k + 1)
  }

  /** `findOne`: the record with `id`, or null when there is none. */
  function FindOne(s: Store, id: nat): (r: Option<Puppy>)
    ensures r.Some? <==> HasId(s, id)
    ensures r.Some? ==> r.value in s.puppies && r.value.id == id
  {
    match IndexOf(s.puppies, id)
    case None => None
    case Some(k) => Some(s.puppies[k])
  }

  /** In a valid store the record `findOne` answers is the only one with
      that id. */
  lemma FindOneUnique(s: Store, id: nat, p: Puppy)
    requires Valid(s) && p in s.puppies && p.id == id
    ensures FindOne(s, id) == Some(p)
  {
  }

  /** `create`: validates the payload; an accepted record is appended with
      a fresh id and returned, a rejected payload writes nothing. */
  function Create(s: Store, f: PuppyFields): (r: Reply<Result<Puppy, ValidationError>>)
    ensures r.value.Success? <==> Acceptable(f)
    ensures r.value == Build(f, s.nextId)
    ensures r.value.Success? ==>
      && r.store.puppies == s.puppies + [r.value.value]
      && r.value.value.id == s.nextId
      && Conforms(r.value.value)
    ensures r.value.Failure? ==> r.store == s
    ensures Valid(s) ==> Valid(r.store)
    ensures Conforming(s) ==> Conforming(r.store)
  {
    match Build(f, s.nextId)
    case Success(p) =>
      AppendFresh(s, p);
      Reply(Store(s.puppies + [p], s.nextId + 1), Success(p))
    case Failure(e) => Reply(s, Failure(e))
  }

  /** Appending a record under the counter's id keeps the store invariants. */
  lemma AppendFresh(s: Store, p: Puppy)
    requires p.id == s.nextId && Conforms(p)
    ensures Valid(s) ==> Valid(Store(s.puppies + [p], s.nextId + 1))
    ensures Conforming(s) ==> Conforming(Store(s.puppies + [p], s.nextId + 1))
  {
  }

  /** Creating then looking up the fresh id yields the payload modulo
      normalisation: the setters applied to the supplied fields and the
      defaults for the omitted ones. */
  lemma CreateThenFindOne(s: Store, f: PuppyFields)
    requires Valid(s) && Create(s, f).value.Success?
    ensures var found := FindOne(Create(s, f).store, s.nextId);
      && found == Some(Create(s, f).value.value)
      && found.value.name == Trim(f.name.value)
      && found.value.gender == Lower(f.gender.value)
      && found.value.size == Lower(f.size.value)
      && found.value.breed == Lower(Trim(f.breed.value))
      && found.value.age == f.age
      && found.value.isVaccinated == f.isVaccinated.GetOr(false)
      && found.value.isNeutered == f.isNeutered.GetOr(false)
      && found.value.traits == f.traits.GetOr([])
      && (f.photoUrl.None? ==> found.value.photoUrl.None?)
      && (f.photoUrl.Some? ==> found.value.photoUrl == Some(Trim(f.photoUrl.value)))
  {
    var r := Create(s, f);
    FindOneUnique(r.store, r.value.value.id, r.value.value);
    BuildKeepsInput(f, s.nextId);
  }

  /** The record after a partial update: each supplied field replaced by
      its value after the field's setter, every other field kept. */
  function Patch(p: Puppy, f: PuppyFields): (r: Puppy)
    ensures r.id == p.id
    ensures f == NoFields ==> r == p
  {
    Puppy(
      p.id,
      if f.name.Some? then SetName(f.name.value) else p.name,
      if f.age.Some? then f.age else p.age,
      if f.gender.Some? then SetGender(f.gender.value) else p.gender,
      if f.isVaccinated.Some? then f.isVaccinated.value else p.isVaccinated,
      if f.isNeutered.Some? then f.isNeutered.value else p.isNeutered,
      if f.size.Some? then SetSize(f.size.value) else p.size,
      if f.breed.Some? then SetBreed(f.breed.value) else p.breed,
      if f.traits.Some? then f.traits.value else p.traits,
      if f.photoUrl.Some? then Some(SetPhotoUrl(f.photoUrl.value)) else p.photoUrl)
  }

  /** The setters keep a normalised record normalised, whatever the
      partial record supplies. */
  lemma PatchKeepsNormalized(p: Puppy, f: PuppyFields)
    requires Normalized(p)
    ensures Normalized(Patch(p, f))
  {
    SettersNormalize(f.name.GetOr(""));
    SettersNormalize(f.gender.GetOr(""));
    SettersNormalize(f.size.GetOr(""));
    SettersNormalize(f.breed.GetOr(""));
    SettersNormalize(f.photoUrl.GetOr(""));
  }

  /** Applying the same partial update twice is the same as once. */
  lemma PatchIdempotent(p: Puppy, f: PuppyFields)
    ensures Patch(Patch(p, f), f) == Patch(p, f)
  {
  }

  /** `update`: for an unknown id, null and no write; otherwise only that
      record changes, its id is kept, and the updated record is returned.
      The schema's validators do not run, but the setters do, so the
      normalisation invariant survives. */
  function Update(s: Store, id: nat, f: PuppyFields): (r: Reply<Option<Puppy>>)
    ensures r.value.None? <==> !HasId(s, id)
    ensures r.value.None? ==> r.store == s
    ensures r.value.Some? ==>
      && r.value.value.id == id
      && r.store.nextId == s.nextId
      && exists k :: 0 <= k < |s.puppies| && s.puppies[k].id == id
                     && r.store.puppies == s.puppies[k := r.value.value]
    ensures Valid(s) ==> Valid(r.store)
  {
    match IndexOf(s.puppies, id)
    case None => Reply(s, None)
    case Some(k) =>
      var q := Patch(s.puppies[k], f);
      ReplaceAtKeepsValid(s, k, f);
      Reply(Store(s.puppies[k := q], s.nextId), Some(q))
  }

  lemma ReplaceAtKeepsValid(s: Store, k: nat, f: PuppyFields)
    requires k < |s.puppies|
    ensures Valid(s) ==> Valid(Store(s.puppies[k := Patch(s.puppies[k], f)], s.nextId))
  {
    if Valid(s) {
      PatchKeepsNormalized(s.puppies[k], f);
    }
  }

  /** Only the supplied fields of the updated record change, and each
      supplied field takes its value through the schema's setter. */
  lemma UpdateChangesOnlySupplied(s: Store, id: nat, f: PuppyFields)
    requires Update(s, id, f).value.Some?
    ensures var q := Update(s, id, f).value.value;
      && (f.name.Some? ==> q.name == SetName(f.name.value))
      && (f.age.Some? ==> q.age == f.age)
      && (f.gender.Some? ==> q.gender == SetGender(f.gender.value))
      && (f.isVaccinated.Some? ==> q.isVaccinated == f.isVaccinated.value)
      && (f.isNeutered.Some? ==> q.isNeutered == f.isNeutered.value)
      && (f.size.Some? ==> q.size == SetSize(f.size.value))
      && (f.breed.Some? ==> q.breed == SetBreed(f.breed.value))
      && (f.traits.Some? ==> q.traits == f.traits.value)
      && (f.photoUrl.Some? ==> q.photoUrl == Some(SetPhotoUrl(f.photoUrl.value)))
    ensures var p, q := FindOne(s, id).value, Update(s, id, f).value.value;
      && (f.name.None? ==> q.name == p.name)
      && (f.age.None? ==> q.age == p.age)
      && (f.gender.None? ==> q.gender == p.gender)
      && (f.isVaccinated.None? ==> q.isVaccinated == p.isVaccinated)
      && (f.isNeutered.None? ==> q.isNeutered == p.isNeutered)
      && (f.size.None? ==> q.size == p.size)
      && (f.breed.None? ==> q.breed == p.breed)
      && (f.traits.None? ==> q.traits == p.traits)
      && (f.photoUrl.None? ==> q.photoUrl == p.photoUrl)
  {
  }

  /** Skipping the validators lets an update store what `create` would
      reject: any update of an existing record that supplies a gender
      outside the enumeration leaves a store that no longer conforms. */
  lemma UpdateCanLeaveSchema(s: Store, id: nat, f: PuppyFields)
    requires HasId(s, id)
    requires f.gender.Some? && Lower(f.gender.value) !in Genders
    ensures !Conforming(Update(s, id, f).store)
  {
    var r := Update(s, id, f);
    var q := r.value.value;
    UpdateChangesOnlySupplied(s, id, f);
    assert !PathValid(q, Gender);
    var k :| 0 <= k < |s.puppies| && s.puppies[k].id == id && r.store.puppies == s.puppies[k := q];
    assert r.store.puppies[k] == q;
  }

  /** `delete`: for an unknown id, null and no write; otherwise the record
      with that id is removed, the rest keep their order, and the removed
      record is returned. */
  function Delete(s: Store, id: nat): (r: Reply<Option<Puppy>>)
    ensures r.value.None? <==> !HasId(s, id)
    ensures r.value.None? ==> r.store == s
    ensures r.value.Some? ==>
      && r.value.value.id == id
      && |r.store.puppies| == |s.puppies| - 1
      && multiset(r.store.puppies) + multiset{r.value.value} == multiset(s.puppies)
      && SubsequenceOf(r.store.puppies, s.puppies)
    ensures Valid(s) ==> Valid(r.store) && !HasId(r.store, id)
  {
    match IndexOf(s.puppies, id)
    case None => Reply(s, None)
    case Some(k) =>
      DropOneIsSubsequence(s.puppies, k);
      RemoveAtCounts(s.puppies, k);
      RemoveAtKeepsValid(s, k);
      Reply(Store(s.puppies[..k] + s.puppies[k + 1..], s.nextId), Some(s.puppies[k]))
  }

  lemma RemoveAtCounts(ps: seq<Puppy>, k: nat)
    requires k < |ps|
    ensures |ps[..k] + ps[k + 1..]| == |ps| - 1
    ensures multiset(ps[..k] + ps[k + 1..]) + multiset{ps[k]} == multiset(ps)
  {
    assert ps == ps[..k] + [ps[k]] + ps[k + 1..];
  }

  /** Removing the record at `k` keeps the store valid, and no record with
      its id is left. */
  lemma RemoveAtKeepsValid(s: Store, k: nat)
    requires k < |s.puppies|
    ensures var t := Store(s.puppies[..k] + s.puppies[k + 1..], s.nextId);
      Valid(s) ==> Valid(t) && !HasId(t, s.puppies[k].id)
  {
    var t := Store(s.puppies[..k] + s.puppies[k + 1..], s.nextId);
    if Valid(s) {
      assert forall i :: 0 <= i < |t.puppies| ==> t.puppies[i] == s.puppies[if i < k then i else i + 1];
    }
  }

  lemma {:induction false} DropOneIsSubsequence<T>(xs: seq<T>, k: nat)
    requires k < |xs|
    ensures SubsequenceOf(xs[..k] + xs[k + 1..], xs)
    decreases k
  {
    if k == 0 {
      assert xs[..0] + xs[1..] == xs[1..];
      SubsequenceOfSelf(xs[1..]);
    } else {
      var ys := xs[..k] + xs[k + 1..];
      DropOneIsSubsequence(xs[1..], k - 1);
      assert ys[1..] == xs[1..][..k - 1] + xs[1..][k..];
    }
  }

  lemma {:induction false} SubsequenceOfSelf<T>(xs: seq<T>)
    ensures SubsequenceOf(xs, xs)
    decreases |xs|
  {
    if xs != [] {
      SubsequenceOfSelf(xs[1..]);
    }
  }

  /** In a valid store `delete` removes that record and no other. */
  lemma DeleteRemovesOnlyThat(s: Store, id: nat)
    requires Valid(s)
    ensures forall p :: p in Delete(s, id).store.puppies <==> p in s.puppies && p.id != id
  {
  }

  // ---------------------------------------------------------------------
  // seedData
  // ---------------------------------------------------------------------

  /** `insertMany`'s validation pass, generic in how one document is cast
      and validated: every document is built before anything is written,
      the ids following one another, and the first rejection stops it. */
  function BuildAll<F, P, E>(data: seq<F>, firstId: nat, build: (F, nat) -> Result<P, E>): (r: Result<seq<P>, E>)
    ensures r.Success? <==> forall i :: 0 <= i < |data| ==> build(data[i], firstId + i).Success?
    ensures r.Success? ==> |r.value| == |data|
    ensures r.Success? ==> forall i :: 0 <= i < |data| ==> build(data[i], firstId + i) == Success(r.value[i])
    ensures r.Failure? ==> exists i :: 0 <= i < |data| && build(data[i], firstId + i) == Failure(r.error)
    decreases |data|
  {
    if data == [] then Success([])
    else match build(data[0], firstId)
      case Failure(e) =>
        assert build(data[0], firstId + 0) == Failure(e);
        Failure(e)
      case Success(p) =>
        var rest := BuildAll(data[1..], firstId + 1, build);
        if rest.Failure? then
          FailureShifts(data, firstId, build, rest.error);
          Failure(rest.error)
        else
          SuccessShifts(data, firstId, build, p, rest.value);
          Success([p] + rest.value)
  }

  /** A failing element of the tail is a failing element of the list. */
  lemma FailureShifts<F, P, E>(data: seq<F>, firstId: nat, build: (F, nat) -> Result<P, E>, e: E)
    requires data != []
    requires exists j :: 0 <= j < |data[1..]| && build(data[1..][j], firstId + 1 + j) == Failure(e)
    ensures exists i :: 0 <= i < |data| && build(data[i], firstId + i) == Failure(e)
  {
    var j :| 0 <= j < |data[1..]| && build(data[1..][j], firstId + 1 + j) == Failure(e);
    assert data[1..][j] == data[j + 1];
    assert build(data[j + 1], firstId + (j + 1)) == Failure(e);
  }

  /** Building the head and then the tail builds the whole list. */
  lemma SuccessShifts<F, P, E>(data: seq<F>, firstId: nat, build: (F, nat) -> Result<P, E>, p: P, ps: seq<P>)
    requires data != [] && build(data[0], firstId) == Success(p)
    requires |ps| == |data[1..]|
    requires forall j :: 0 <= j < |data[1..]| ==> build(data[1..][j], firstId + 1 + j) == Success(ps[j])
    ensures forall i :: 0 <= i < |data| ==> build(data[i], firstId + i) == Success(([p] + ps)[i])
  {
    forall i | 0 <= i < |data| ensures build(data[i], firstId + i) == Success(([p] + ps)[i]) {
      if i > 0 {
        assert data[i] == data[1..][i - 1];
        assert build(data[1..][i - 1], firstId + 1 + (i - 1)) == Success(ps[i - 1]);
      } else {
        assert firstId + i == firstId;
      }
    }
  }

  /** `seedData`: deletes every stored puppy, then inserts the whole list.
      When one payload is rejected nothing is inserted, but the deletion
      has already happened, so the store is left empty. Either way the
      store afterwards conforms to the schema, whatever it held before. */
  function SeedData(s: Store, data: seq<PuppyFields>): (r: Reply<Outcome<ValidationError>>)
    ensures r.value.Pass? <==> forall i :: 0 <= i < |data| ==> Acceptable(data[i])
    ensures r.value.Fail? ==> r.store.puppies == []
    ensures Conforming(r.store)
  {
    BuildAllAcceptable(data, s.nextId);
    BuildAllConforming(data, s.nextId);
    match BuildAll(data, s.nextId, Build)
    case Failure(e) => Reply(Store([], s.nextId), Fail(e))
    case Success(ps) => Reply(Store(ps, s.nextId + |data|), Pass)
  }

  lemma BuildAllAcceptable(data: seq<PuppyFields>, firstId: nat)
    ensures BuildAll(data, firstId, Build).Success? <==> forall i :: 0 <= i < |data| ==> Acceptable(data[i])
  {
    var build := Build;
    forall i | 0 <= i < |data|
      ensures build(data[i], firstId + i).Success? <==> Acceptable(data[i])
    {
      assert build(data[i], firstId + i) == Build(data[i], firstId + i);
    }
  }

  lemma BuildAllBuilds(data: seq<PuppyFields>, firstId: nat)
    requires BuildAll(data, firstId, Build).Success?
    ensures var ps := BuildAll(data, firstId, Build).value;
      && |ps| == |data|
      && forall i :: 0 <= i < |data| ==> Build(data[i], firstId + i) == Success(ps[i])
  {
    var build := Build;
    var ps := BuildAll(data, firstId, Build).value;
    forall i | 0 <= i < |data|
      ensures Build(data[i], firstId + i) == Success(ps[i])
    {
      assert build(data[i], firstId + i) == Success(ps[i]);
    }
  }

  lemma BuildAllConforming(data: seq<PuppyFields>, firstId: nat)
    ensures var r := BuildAll(data, firstId, Build);
      r.Success? ==> Conforming(Store(r.value, firstId + |data|))
  {
    var r := BuildAll(data, firstId, Build);
    if r.Success? {
      BuildAllBuilds(data, firstId);
      BuiltConforming(data, firstId, r.value);
    }
  }

  /** Records built from consecutive ids form a conforming store. */
  lemma BuiltConforming(data: seq<PuppyFields>, firstId: nat, ps: seq<Puppy>)
    requires |ps| == |data|
    requires forall i :: 0 <= i < |data| ==> Build(data[i], firstId + i) == Success(ps[i])
    ensures Conforming(Store(ps, firstId + |data|))
  {
    forall i | 0 <= i < |ps|
      ensures ps[i].id == firstId + i && Conforms(ps[i])
    {
      assert Build(data[i], firstId + i) == Success(ps[i]);
    }
  }

  /** After a successful seed the store holds exactly the list, in order,
      each payload normalised as `create` would store it. */
  lemma SeedStoresData(s: Store, data: seq<PuppyFields>)
    requires SeedData(s, data).value.Pass?
    ensures var ps := SeedData(s, data).store.puppies;
      && |ps| == |data|
      && forall i :: 0 <= i < |data| ==> Build(data[i], s.nextId + i) == Success(ps[i])
  {
    BuildAllBuilds(data, s.nextId);
  }

  /** The id a record is built under affects nothing else in it. */
  lemma BuildIdIrrelevant(f: PuppyFields, id1: nat, id2: nat)
    requires Build(f, id1).Success?
    ensures Build(f, id2) == Success(Build(f, id1).value.(id := id2))
  {
  }

  /** The records' contents without their ids. */
  function Contents(ps: seq<Puppy>): seq<PuppyFields> {
    seq(|ps|, i requires 0 <= i < |ps| => ToFields(ps[i]))
  }

  /** Seeding is a replacement, not a merge: two stores seeded with the same
      list end up with the same contents, whatever each held before. */
  lemma SeedForgetsPrior(s1: Store, s2: Store, data: seq<PuppyFields>)
    ensures SeedData(s1, data).value.Pass? == SeedData(s2, data).value.Pass?
    ensures Contents(SeedData(s1, data).store.puppies) == Contents(SeedData(s2, data).store.puppies)
  {
    var r1, r2 := SeedData(s1, data), SeedData(s2, data);
    if r1.value.Pass? {
      SeedStoresData(s1, data);
      SeedStoresData(s2, data);
      var ps1, ps2 := r1.store.puppies, r2.store.puppies;
      forall i | 0 <= i < |data|
        ensures ToFields(ps1[i]) == ToFields(ps2[i])
      {
        BuildIdIrrelevant(data[i], s1.nextId + i, s2.nextId + i);
      }
      assert Contents(ps1) == Contents(ps2);
    }
  }
}
