/** The stored puppy record and the schema rules every write goes through:
    the `trim` and `lowercase` setters, the `required`, `enum` and `match`
    validators, and the defaults of `isVaccinated`, `isNeutered` and
    `traits`. */
module PuppySchema {
  import opened Results
  import opened Text

  const Genders: seq<string> := ["male", "female", "other"]
  const Sizes: seq<string> := ["small", "medium", "large"]

  /** A stored puppy. `id` stands for the store-assigned `_id`; `age` and
      `photoUrl` are optional in the schema and so may be absent. */
  datatype Puppy = Puppy(
    id: nat,
    name: string,
    age: Option<int>,
    gender: string,
    isVaccinated: bool,
    isNeutered: bool,
    size: string,
    breed: string,
    traits: seq<string>,
    photoUrl: Option<string>)

  /** A puppy as a caller hands it in: every field may be omitted. It is the
      payload of `create` and of each `seedData` element, and the partial
      record of `update`. */
  datatype PuppyFields = PuppyFields(
    name: Option<string>,
    age: Option<int>,
    gender: Option<string>,
    isVaccinated: Option<bool>,
    isNeutered: Option<bool>,
    size: Option<string>,
    breed: Option<string>,
    traits: Option<seq<string>>,
    photoUrl: Option<string>)

  const NoFields := PuppyFields(None, None, None, None, None, None, None, None, None)

  /** The schema paths that carry a validator. */
  datatype Path = Name | Gender | Size | Breed | PhotoUrl

  const AllPaths: set<Path> := {Name, Gender, Size, Breed, PhotoUrl}

  /** A rejected write, naming every path whose validator failed. */
  datatype ValidationError = ValidationError(paths: set<Path>)

  // ---------------------------------------------------------------------
  // Setters
  // ---------------------------------------------------------------------

  function SetName(v: string): string { Trim(v) }
  function SetGender(v: string): string { Lower(v) }
  function SetSize(v: string): string { Lower(v) }
  function SetBreed(v: string): string { Lower(Trim(v)) }
  function SetPhotoUrl(v: string): string { Trim(v) }

  /** The normalisation the setters establish on every stored value. */
  predicate Normalized(p: Puppy) {
    && IsTrimmed(p.name)
    && IsLowercase(p.gender)
    && IsLowercase(p.size)
    && IsLowercase(p.breed) && IsTrimmed(p.breed)
    && (p.photoUrl.Some? ==> IsTrimmed(p.photoUrl.value))
  }

  lemma SettersNormalize(v: string)
    ensures IsTrimmed(SetName(v)) && IsTrimmed(SetPhotoUrl(v))
    ensures IsLowercase(SetGender(v)) && IsLowercase(SetSize(v))
    ensures IsLowercase(SetBreed(v)) && IsTrimmed(SetBreed(v))
  {
    LowerKeepsTrimmed(Trim(v));
  }

  // ---------------------------------------------------------------------
  // Validators
  // ---------------------------------------------------------------------

  /** A character JavaScript's regex `.` does not match. */
  predicate IsLineTerminator(c: char) {
    c == '\n' || c == '\r' || c == '\U{2028}' || c == '\U{2029}'
  }

  /** `rest` matches `.+\..+` from its start: at least one character, a
      dot, then at least one more character, none of them line terminators
      (the pattern is not anchored at its end). */
  predicate HostShaped(rest: string) {
    exists k :: 1 <= k < |rest| - 1 && rest[k] == '.'
      && (forall j :: 0 <= j < k ==> !IsLineTerminator(rest[j]))
      && !IsLineTerminator(rest[k + 1])
  }

  /** The photo URL pattern `^https?:\/\/.+\..+`. */
  predicate IsPhotoUrl(s: string) {
    || (|s| >= 7 && s[..7] == "http://" && HostShaped(s[7..]))
    || (|s| >= 8 && s[..8] == "https://" && HostShaped(s[8..]))
  }

  /** Whether the validator of `path` accepts the already-set record. A
      required string fails when empty; the `match` validator skips an
      absent or empty value. */
  predicate PathValid(p: Puppy, path: Path) {
    match path
    case Name => p.name != ""
    case Gender => p.gender in Genders
    case Size => p.size in Sizes
    case Breed => p.breed != ""
    case PhotoUrl => p.photoUrl.None? || p.photoUrl.value == "" || IsPhotoUrl(p.photoUrl.value)
  }

  /** A record the schema would accept for storage. */
  predicate Conforms(p: Puppy) {
    Normalized(p) && forall path :: PathValid(p, path)
  }

  /** Builds the document Mongoose would hold before validation: setters on
      the supplied strings, defaults for the omitted flags and traits. An
      omitted required string is held as "" (the required validator treats
      it like a missing value). */
  function Cast(f: PuppyFields, id: nat): (p: Puppy)
    ensures Normalized(p) && p.id == id
  {
    SettersNormalize(f.name.GetOr(""));
    SettersNormalize(f.gender.GetOr(""));
    SettersNormalize(f.size.GetOr(""));
    SettersNormalize(f.breed.GetOr(""));
    SettersNormalize(f.photoUrl.GetOr(""));
    Puppy(
      id,
      SetName(f.name.GetOr("")),
      f.age,
      SetGender(f.gender.GetOr("")),
      f.isVaccinated.GetOr(false),
      f.isNeutered.GetOr(false),
      SetSize(f.size.GetOr("")),
      SetBreed(f.breed.GetOr("")),
      f.traits.GetOr([]),
      if f.photoUrl.Some? then Some(SetPhotoUrl(f.photoUrl.value)) else None)
  }

  /** What the schema demands of a raw payload, stated on the payload. */
  predicate Acceptable(f: PuppyFields) {
    && f.name.Some? && Trim(f.name.value) != ""
    && f.gender.Some? && Lower(f.gender.value) in Genders
    && f.size.Some? && Lower(f.size.value) in Sizes
    && f.breed.Some? && Trim(f.breed.value) != ""
    && (f.photoUrl.Some? ==> var u := Trim(f.photoUrl.value); u == "" || IsPhotoUrl(u))
  }

  /** The paths of `p` whose validator fails. */
  function FailingPaths(p: Puppy): (bad: set<Path>)
    ensures forall path :: path in bad <==> !PathValid(p, path)
  {
    AllPathsComplete();
    set path | path in AllPaths && !PathValid(p, path)
  }

  lemma AllPathsComplete()
    ensures forall path :: path in AllPaths
  {
    forall path ensures path in AllPaths {
      match path
      case Name => case Gender => case Size => case Breed => case PhotoUrl =>
    }
  }

  /** Each validator's verdict on the cast record, restated on the raw
      payload. */
  lemma CastNameValid(f: PuppyFields, id: nat)
    ensures PathValid(Cast(f, id), Name) <==> f.name.Some? && Trim(f.name.value) != ""
  {
  }

  lemma CastGenderValid(f: PuppyFields, id: nat)
    ensures PathValid(Cast(f, id), Gender) <==> f.gender.Some? && Lower(f.gender.value) in Genders
  {
    assert "" !in Genders;
  }

  lemma CastSizeValid(f: PuppyFields, id: nat)
    ensures PathValid(Cast(f, id), Size) <==> f.size.Some? && Lower(f.size.value) in Sizes
  {
    assert "" !in Sizes;
  }

  lemma CastBreedValid(f: PuppyFields, id: nat)
    ensures PathValid(Cast(f, id), Breed) <==> f.breed.Some? && Trim(f.breed.value) != ""
  {
    var b := Trim(f.breed.GetOr(""));
    assert Cast(f, id).breed == Lower(b);
    assert |Lower(b)| == |b|;
  }

  lemma CastPhotoUrlValid(f: PuppyFields, id: nat)
    ensures PathValid(Cast(f, id), PhotoUrl) <==>
      (f.photoUrl.Some? ==> var u := Trim(f.photoUrl.value); u == "" || IsPhotoUrl(u))
  {
    assert Cast(f, id).photoUrl == if f.photoUrl.Some? then Some(Trim(f.photoUrl.value)) else None;
  }

  lemma CastPathValid(f: PuppyFields, id: nat)
    ensures PathValid(Cast(f, id), Name) <==> f.name.Some? && Trim(f.name.value) != ""
    ensures PathValid(Cast(f, id), Gender) <==> f.gender.Some? && Lower(f.gender.value) in Genders
    ensures PathValid(Cast(f, id), Size) <==> f.size.Some? && Lower(f.size.value) in Sizes
    ensures PathValid(Cast(f, id), Breed) <==> f.breed.Some? && Trim(f.breed.value) != ""
    ensures PathValid(Cast(f, id), PhotoUrl) <==>
      (f.photoUrl.Some? ==> var u := Trim(f.photoUrl.value); u == "" || IsPhotoUrl(u))
  {
    CastNameValid(f, id);
    CastGenderValid(f, id);
    CastSizeValid(f, id);
    CastBreedValid(f, id);
    CastPhotoUrlValid(f, id);
  }

  lemma CastAcceptable(f: PuppyFields, id: nat)
    ensures (forall path :: PathValid(Cast(f, id), path)) <==> Acceptable(f)
  {
    CastPathValid(f, id);
    if Acceptable(f) {
      forall path ensures PathValid(Cast(f, id), path) {
        match path
        case Name => case Gender => case Size => case Breed => case PhotoUrl =>
      }
    }
  }

  /** Casting then validating one payload, as `create` and `insertMany`
      do: it succeeds exactly when the payload is acceptable, and what it
      yields conforms to the schema and carries the given id. */
  function Build(f: PuppyFields, id: nat): (r: Result<Puppy, ValidationError>)
    ensures r.Success? <==> Acceptable(f)
    ensures r.Success? ==> Conforms(r.value) && r.value.id == id
    ensures r.Failure? ==> r.error.paths != {}
  {
    var p := Cast(f, id);
    CastAcceptable(f, id);
    if Acceptable(f) then
      Success(p)
    else
      var bad := FailingPaths(p);
      assert exists path :: path in bad;
      Failure(ValidationError(bad))
  }

  /** A stored record holds the normalised input and the defaults for what
      was omitted. */
  lemma BuildKeepsInput(f: PuppyFields, id: nat)
    requires Build(f, id).Success?
    ensures var p := Build(f, id).value;
      && p.name == Trim(f.name.value)
      && p.gender == Lower(f.gender.value)
      && p.size == Lower(f.size.value)
      && p.breed == Lower(Trim(f.breed.value))
      && p.age == f.age
      && (f.isVaccinated.None? ==> !p.isVaccinated)
      && (f.isVaccinated.Some? ==> p.isVaccinated == f.isVaccinated.value)
      && (f.isNeutered.None? ==> !p.isNeutered)
      && (f.isNeutered.Some? ==> p.isNeutered == f.isNeutered.value)
      && (f.traits.None? ==> p.traits == [])
      && (f.traits.Some? ==> p.traits == f.traits.value)
      && (f.photoUrl.None? ==> p.photoUrl.None?)
      && (f.photoUrl.Some? ==> p.photoUrl == Some(Trim(f.photoUrl.value)))
  {
  }

  /** A rejection names exactly the fields that were missing, blank, outside
      their enumeration or, for a non-empty photo URL, not URL-shaped. */
  lemma BuildReportsPaths(f: PuppyFields, id: nat)
    requires Build(f, id).Failure?
    ensures var bad := Build(f, id).error.paths;
      && (Name in bad <==> f.name.None? || Trim(f.name.value) == "")
      && (Gender in bad <==> f.gender.None? || Lower(f.gender.value) !in Genders)
      && (Size in bad <==> f.size.None? || Lower(f.size.value) !in Sizes)
      && (Breed in bad <==> f.breed.None? || Trim(f.breed.value) == "")
      && (PhotoUrl in bad <==>
            f.photoUrl.Some? && Trim(f.photoUrl.value) != "" && !IsPhotoUrl(Trim(f.photoUrl.value)))
  {
    var bad := Build(f, id).error.paths;
    assert bad == FailingPaths(Cast(f, id));
    CastNameValid(f, id);
    CastGenderValid(f, id);
    CastSizeValid(f, id);
    CastBreedValid(f, id);
    CastPhotoUrlValid(f, id);
  }

  /** The payload that describes a stored record field for field. */
  function ToFields(p: Puppy): PuppyFields {
    PuppyFields(Some(p.name), p.age, Some(p.gender), Some(p.isVaccinated), Some(p.isNeutered),
                Some(p.size), Some(p.breed), Some(p.traits), p.photoUrl)
  }

  /** Normalisation is idempotent: writing back a record the schema already
      accepts stores that very record. */
  lemma RebuildIsIdentity(p: Puppy)
    requires Conforms(p)
    ensures Build(ToFields(p), p.id) == Success(p)
  {
    var f := ToFields(p);
    assert PathValid(p, Name) && PathValid(p, Gender) && PathValid(p, Size);
    assert PathValid(p, Breed) && PathValid(p, PhotoUrl);
    assert Acceptable(f);
    BuildKeepsInput(f, p.id);
  }

  /** The payload with its enumerated and breed fields lower-cased, as a
      caller who already folded their case would send it. */
  function LowerCased(f: PuppyFields): PuppyFields {
    f.(gender := if f.gender.Some? then Some(Lower(f.gender.value)) else None,
       size := if f.size.Some? then Some(Lower(f.size.value)) else None,
       breed := if f.breed.Some? then Some(Lower(f.breed.value)) else None)
  }

  lemma LowerCasedCast(f: PuppyFields, id: nat)
    ensures Cast(LowerCased(f), id) == Cast(f, id)
  {
    var g := LowerCased(f);
    var gender, size, breed := f.gender.GetOr(""), f.size.GetOr(""), f.breed.GetOr("");
    LowerIdempotent(gender);
    LowerIdempotent(size);
    LowerTrimCommute(breed);
    LowerIdempotent(Trim(breed));
    assert g.gender.GetOr("") == Lower(gender);
    assert g.size.GetOr("") == Lower(size);
    assert g.breed.GetOr("") == Lower(breed);
    assert SetGender(Lower(gender)) == SetGender(gender);
    assert SetSize(Lower(size)) == SetSize(size);
    assert SetBreed(Lower(breed)) == SetBreed(breed);
  }

  lemma LowerCasedAcceptable(f: PuppyFields)
    ensures Acceptable(LowerCased(f)) <==> Acceptable(f)
  {
    if f.gender.Some? {
      LowerIdempotent(f.gender.value);
    }
    if f.size.Some? {
      LowerIdempotent(f.size.value);
    }
    if f.breed.Some? {
      LowerTrimCommute(f.breed.value);
      assert |Trim(Lower(f.breed.value))| == |Trim(f.breed.value)|;
    }
  }

  /** The case of `gender`, `size` and `breed` in a payload never matters:
      both payloads are accepted or rejected alike and store the same
      record. */
  lemma BuildIgnoresCase(f: PuppyFields, id: nat)
    ensures Build(LowerCased(f), id) == Build(f, id)
  {
    LowerCasedCast(f, id);
    LowerCasedAcceptable(f);
  }
}
