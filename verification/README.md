# Puppy adoption backend — a Dafny model of its catalog and adoption core

This project models the core of the `adopt-backend` service: a puppy catalog
backed by a document store, and an adoption endpoint that links an adopter to
a puppy. The store is replaced by a sequence of records in insertion order,
with a counter that hands out fresh ids. Every operation becomes a pure
function from a store and an input to a new store and a result.

- `results.dfy` (module `Results`): `Option`, `Result` and `Outcome`.
- `text.dfy` (module `Text`):
  - the string operations the schema and the queries use;
  - ASCII lowercasing, as `toLowerCase` and the `i` regex option behave on ASCII;
  - JavaScript `trim` over its full white-space and line-terminator set;
  - literal substring search, with and without case folding.
- `puppy_schema.dfy` (module `PuppySchema`): the `Puppy` schema. It covers:
  - the `trim` and `lowercase` setters;
  - the `required`, `enum` and `match` validators;
  - the `false`/`false`/`[]` defaults;
  - `Build`, which turns a payload into a stored record or a validation error naming the failing paths.
- `catalog.dfy` (module `Puppies`): `PuppiesService`:
  - `findAll` (filter construction and matching);
  - `getFilters`, `findOne`, `create`, `update` and `delete`;
  - `seedData`, which deletes everything and then inserts the batch.
- `adoption.dfy` (module `Adopters`): `AdoptersService.adopt`. It looks up the
  puppy, appends one adopter record only if the puppy exists, and returns the
  puppy.

These are the store semantics the model commits to:

- **When setters and validators run.** Setters run on every write (`create`,
  `insertMany`, `findByIdAndUpdate`). Validators run on `create` and
  `insertMany`. They do not run on `findByIdAndUpdate`, because the service
  does not ask for update validators.
- **Failed validation.** A `required` string fails when it is empty. The
  `match` validator skips an absent or empty value.
- **Query casting.** Before evaluating a filter document, the store runs
  each path's setters on its equality values. So the breed criterion is
  trimmed as well as lowercased: `" Greyhound "` selects the greyhounds.
  The `$regex` alternatives of the search are not affected.
- **Seeding.** `insertMany` validates the whole batch before writing any of it.
  So a seed with one invalid record leaves the collection empty, because the
  preceding `deleteMany` has already run.

The model follows the code wherever the service's documented design says
otherwise:

- `findAll` returns a plain list: there is no pagination and no last-page count.
- `seedData` has no guard against running in production.
- `adopt` returns the found puppy or null. It does not return the adoption
  record and does not raise a not-found error.

## Model

| member | source | states |
|---|---|---|
| Text.Lower | src/puppies/puppies.service.ts:39-42 | lowercasing keeps the length, yields a lowercase string, and is the identity on lowercase input |
| Text.LowerSameLetters | src/puppies/puppies.service.ts:39-42 | the lowercased string agrees with the input letter by letter up to ASCII case, so lowercasing changes only the case of letters |
| Text.LowerEqualIff | src/puppies/puppies.service.ts:34-35 | two strings lowercase to the same string exactly when they agree letter by letter ignoring ASCII case |
| Text.Trim | src/database/puppies.dto.ts:8-9 | trimming yields a string with no leading or trailing white space, and leaves an already trimmed string alone |
| Text.TrimIsSlice | src/database/puppies.dto.ts:8-9 | the trimmed string is a contiguous slice of the input, and only white space is cut off on either side |
| Text.TrimIdempotent | src/database/puppies.dto.ts:32-33 | trimming twice is trimming once |
| Text.LowerTrimCommute | src/database/puppies.dto.ts:26-27 | for breed, trimming then lowercasing equals lowercasing then trimming |
| Text.LowerTrimLower | src/puppies/puppies.service.ts:39 | lowercasing a breed before the trim-and-lowercase setter makes no difference to the value the setter yields |
| Text.Occurs | src/puppies/puppies.service.ts:33-36 | the recursive search answers true exactly when the needle occurs at some position of the haystack |
| Text.ContainsIgnoringCase | src/puppies/puppies.service.ts:33-36 | a case-insensitive search hit means that some position of the haystack matches the needle letter by letter ignoring case, and conversely |
| Text.ContainsIgnoresNeedleCase | src/puppies/puppies.service.ts:34-35 | lowercasing the search term never changes whether it is found |
| PuppySchema.SettersNormalize | src/database/puppies.dto.ts:8-33 | the setters make name, breed and photoUrl trimmed and gender, size and breed lowercase |
| PuppySchema.Cast | src/database/puppies.dto.ts:7-34 | the document built from a payload before validation is already normalised (trimmed name, breed and photoUrl; lowercase gender, size and breed) and carries the given id |
| PuppySchema.CastPhotoUrlValid | src/database/puppies.dto.ts:32-33 | the photoUrl validator accepts exactly an absent or blank URL, or one starting with http:// or https:// followed by a character, a dot and a character |
| PuppySchema.Build | src/database/puppies.dto.ts:7-34 | a payload is stored exactly when name and breed are non-blank after trimming, gender and size lowercase into their enumerations, and a non-blank photoUrl is URL-shaped; a stored record conforms to the schema and has the given id; a rejection names at least one path |
| PuppySchema.BuildKeepsInput | src/database/puppies.dto.ts:8-30 | a stored record holds the trimmed name, the lowercased gender and size, the trimmed and lowercased breed and the given age, and defaults isVaccinated and isNeutered to false and traits to empty |
| PuppySchema.BuildReportsPaths | src/database/puppies.dto.ts:8-33 | a rejection names each path exactly when that field is missing, blank, outside its enumeration or, for photoUrl, not URL-shaped |
| PuppySchema.RebuildIsIdentity | src/database/puppies.dto.ts:7-34 | writing back a conforming record field for field stores that same record |
| PuppySchema.BuildIgnoresCase | src/database/puppies.dto.ts:14-27 | lowercasing gender, size and breed in a payload beforehand changes neither the acceptance nor the stored record |
| Puppies.QueryMeansSelected | src/puppies/puppies.service.ts:29-46 | the filter document matches a puppy exactly when the puppy meets every truthy criterion: the search text in its name or breed ignoring case, its breed equal to the trimmed and lowercased breed criterion, its size and gender equal to the lowercased criteria, and its age equal |
| Puppies.BuildQuery | src/puppies/puppies.service.ts:29-44 | every equality value of the filter document is in stored form: the breed value is lowercase and trimmed, the size and gender values are lowercase |
| Puppies.Select | src/puppies/puppies.service.ts:46 | the store's evaluation of a filter document keeps exactly the matching records, each as often as it is stored, in store order |
| Puppies.FindAll | src/puppies/puppies.service.ts:28-47 | the result contains exactly the stored puppies that meet the filter, each as many times as it is stored, as an order-preserving subsequence of the store |
| Puppies.FindAllWithoutFilter | src/puppies/puppies.service.ts:28-46 | with no filter every stored puppy is returned, in store order |
| Puppies.FindAllIgnoresCase | src/puppies/puppies.service.ts:34-42 | a filter gives the same result as its lowercased form |
| Puppies.FindAllTrimsBreed | src/puppies/puppies.service.ts:39 | white space around a breed criterion changes nothing (" Greyhound " selects the greyhounds), as long as the criterion is not all white space |
| Puppies.FindAllIgnoresFalsy | src/puppies/puppies.service.ts:32-42 | an empty string or an age of 0 in the filter constrains nothing |
| Puppies.GetFilters | src/puppies/puppies.service.ts:55-58 | every breed present in the store is listed exactly once, and no absent breed is listed |
| Puppies.IndexOf | src/puppies/puppies.service.ts:67 | the lookup behind findById, findByIdAndUpdate and findByIdAndDelete answers the first position holding the id, or none exactly when no record holds it |
| Puppies.FindOne | src/puppies/puppies.service.ts:66-68 | the lookup answers null exactly when no stored puppy has the id; otherwise it answers a stored puppy with that id |
| Puppies.FindOneUnique | src/puppies/puppies.service.ts:66-68 | in a store with unique ids, the lookup answers the one puppy holding the id |
| Puppies.Create | src/puppies/puppies.service.ts:77-79 | create answers exactly what building the payload under the next fresh id gives; it succeeds exactly when the payload is acceptable; on success it appends that conforming record; on rejection it writes nothing; it keeps ids unique and records normalised |
| Puppies.CreateThenFindOne | src/puppies/puppies.service.ts:66-79 | after a successful create, looking up the fresh id finds the created record, which is the payload modulo normalisation: trimmed name, lowercased gender and size, trimmed and lowercased breed, the given age and trimmed photoUrl, and false, false and no traits where those were omitted |
| Puppies.Update | src/puppies/puppies.service.ts:98-100 | update answers null and writes nothing exactly when the id is absent; otherwise it replaces one record holding the id with the updated record it returns, and it keeps ids unique and records normalised |
| Puppies.UpdateChangesOnlySupplied | src/puppies/puppies.service.ts:98-100 | every supplied field takes the setter-normalised new value, and every omitted field keeps its old value |
| Puppies.PatchIdempotent | src/puppies/puppies.service.ts:98-100 | applying the same update twice is the same as applying it once |
| Puppies.Patch | src/puppies/puppies.service.ts:98-100 | the partial update applied by findByIdAndUpdate never changes the record's id, and an update with no fields leaves the record as it was |
| Puppies.PatchKeepsNormalized | src/puppies/puppies.service.ts:98-100 | because the setters run on the update, a normalised record stays normalised whatever fields are supplied |
| Puppies.UpdateCanLeaveSchema | src/puppies/puppies.service.ts:98-100 | because validators do not run on update, updating an existing record with a gender outside the enumeration always leaves a store that no longer conforms to the schema |
| Puppies.Delete | src/puppies/puppies.service.ts:87-89 | delete answers null and writes nothing exactly when the id is absent; otherwise it removes exactly one occurrence of the returned record, which holds the id, and keeps the order of the rest; in a valid store no record with the id remains |
| Puppies.DeleteRemovesOnlyThat | src/puppies/puppies.service.ts:87-89 | in a valid store, the records left after a delete are exactly the old records with a different id |
| Puppies.BuildAll | src/puppies/puppies.service.ts:109 | a batch insert succeeds exactly when every element builds, each stored record is the build of its element with consecutive ids, and a failure carries the error of some failing element |
| Puppies.SeedData | src/puppies/puppies.service.ts:107-110 | seeding passes exactly when every element is acceptable, a failed seed leaves the collection empty, and the collection afterwards always conforms to the schema |
| Puppies.SeedStoresData | src/puppies/puppies.service.ts:107-110 | after a passing seed, the collection holds exactly the built data elements, one per element, in order |
| Puppies.SeedForgetsPrior | src/puppies/puppies.service.ts:107-110 | the outcome and the stored contents of a seed do not depend on what the collection held before |
| Adopters.MissingPaths | src/database/adopters.dto.ts:8-18 | an adopter field is reported missing exactly when it is empty |
| Adopters.Adopt | src/adopters/adopters.service.ts:14-33 | adopt never changes the puppy store; for an absent puppy it answers null and writes nothing; otherwise it appends exactly one adopter record, copying the submitter's fields and the puppy id, and answers the found puppy; if a required adopter field is empty it reports that and writes nothing |
| Adopters.AdoptAppendsAtMostOne | src/adopters/adopters.service.ts:24-30 | the adopters collection keeps its earlier records and grows by at most one |
| Adopters.AdoptKeepsLinked | src/adopters/adopters.service.ts:21-30 | if every adopter refers to an existing puppy before adopt, that is still so afterwards, and adopter ids stay unique and below the counter |
| Adopters.DeleteOrphans | src/puppies/puppies.service.ts:87-89 | deleting the puppy of any adopter from a valid store leaves that adopter referring to no puppy, because delete does not cascade |

## Left out

- Document ids: the store's `_id` values are modelled as natural numbers from a counter. A malformed id string, which the store would reject with a cast error, is not modelled.
- Search syntax: the search term is taken as a literal substring. Regular-expression metacharacters in it are not interpreted.
- Case folding: only ASCII is folded. Unicode case folding is not modelled.
- Puppies.GetFilters: the breeds are listed in first-occurrence order. The store itself leaves the order of distinct values unspecified.
- Puppies.SeedForgetsPrior: it does not state that the error value of a failed seed is the same for any prior store, only that the outcome kind and the stored contents agree. Only the record ids differ between two seeds.
- Puppies.BuildAll: it states that a failure carries the error of some failing element. It does not state that this is the first such element.
- Age: `age` is a JavaScript number; the model uses integers and does not model fractional ages.
- Timestamps: the timestamps the puppy schema adds to every record are not modelled.
- Adopters.Adopt: it treats the lookup and the append as one step. The window between the two store calls, in which the puppy could be deleted, is not modelled.
- Adopters.Adopt: the adopter schema's `puppyId` is a required string, and it always holds the looked-up id, so its validator is not modelled separately.
- Schemas that the services do not use: src/database/adopter.dto.ts has e-mail and phone patterns, but `AdoptersService` writes through the schema in src/database/adopters.dto.ts, which only marks fields required. src/puppies/puppies.dto.ts is a duplicate puppy schema that the service does not import.
- Framework code: HTTP controllers, request-body validation decorators, module wiring, environment checks and bootstrap are outside the core. That includes the seed that the puppies module starts at start-up.
- Asynchrony: the promise plumbing is not modelled. Every operation is a single atomic step.
