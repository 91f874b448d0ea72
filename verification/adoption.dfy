/** The adoption link: `adopt` looks the referenced puppy up first and only
    when it exists appends one adopter record copying the submission. The
    lookup and the append are two separate store calls; the model takes
    them as one step (see the README on the race between them). */
module Adopters {
  import opened Results
  import opened PuppySchema
  import Puppies

  /** A stored adopter (the `Adopters` schema): the submitter's contact
      details and the id of the puppy they asked about. */
  datatype Adopter = Adopter(
    id: nat,
    name: string,
    email: string,
    phone: string,
    message: string,
    puppyId: nat)

  /** The adopters collection in insertion order and its next fresh id. */
  datatype AdopterStore = AdopterStore(records: seq<Adopter>, nextId: nat)

  /** The two collections `adopt` touches. */
  datatype Db = Db(puppies: Puppies.Store, adopters: AdopterStore)

  /** What `adopt` receives: the puppy's id and the submitter's fields. */
  datatype Submission = Submission(id: nat, name: string, email: string, phone: string, message: string)

  /** The required paths of the `Adopters` schema that a submission fills. */
  datatype AdopterPath = NamePath | EmailPath | PhonePath | MessagePath

  /** A rejected adopter record, naming the required paths left empty. */
  datatype AdopterError = AdopterError(paths: set<AdopterPath>)

  /** The database after `adopt`, and its answer: the puppy, null, or the
      rejection of the adopter record. */
  datatype AdoptReply = AdoptReply(db: Db, value: Result<Option<Puppy>, AdopterError>)

  /** The `required` validators of the adopter schema: a required string
      fails when it is empty. `puppyId` always holds the looked-up id. */
  function MissingPaths(sub: Submission): (bad: set<AdopterPath>)
    ensures NamePath in bad <==> sub.name == ""
    ensures EmailPath in bad <==> sub.email == ""
    ensures PhonePath in bad <==> sub.phone == ""
    ensures MessagePath in bad <==> sub.message == ""
  {
    (if sub.name == "" then {NamePath} else {})
    + (if sub.email == "" then {EmailPath} else {})
    + (if sub.phone == "" then {PhonePath} else {})
    + (if sub.message == "" then {MessagePath} else {})
  }

  /** The adopter record a submission becomes. */
  function RecordFor(sub: Submission, id: nat): Adopter {
    Adopter(id, sub.name, sub.email, sub.phone, sub.message, sub.id)
  }

  /** `adopt`. When no puppy has the submitted id it answers null and writes
      nothing. Otherwise it appends exactly one adopter record, copying the
      submitter's fields verbatim and the puppy id, and answers the found
      puppy, not the adopter record; an empty required field makes that
      append reject, and nothing is written. The puppy store is never
      changed. */
  function Adopt(db: Db, sub: Submission): (r: AdoptReply)
    ensures r.db.puppies == db.puppies
    ensures !Puppies.HasId(db.puppies, sub.id) ==> r.db == db && r.value == Success(None)
    ensures r.value.Failure? <==> Puppies.HasId(db.puppies, sub.id) && MissingPaths(sub) != {}
    ensures r.value.Failure? ==> r.db == db && r.value.error.paths != {}
    ensures r.value.Success? && r.value.value.Some? ==>
      && r.value.value.value in db.puppies.puppies
      && r.value.value.value.id == sub.id
      && r.db.adopters.records == db.adopters.records + [RecordFor(sub, db.adopters.nextId)]
      && r.db.adopters.nextId == db.adopters.nextId + 1
    ensures r.value.Success? && r.value.value.Some? <==>
      Puppies.HasId(db.puppies, sub.id) && MissingPaths(sub) == {}
  {
    match Puppies.FindOne(db.puppies, sub.id)
    case None => AdoptReply(db, Success(None))
    case Some(puppy) =>
      var bad := MissingPaths(sub);
      if bad != {} then
        AdoptReply(db, Failure(AdopterError(bad)))
      else
        var adopters := AdopterStore(db.adopters.records + [RecordFor(sub, db.adopters.nextId)],
                                     db.adopters.nextId + 1);
        AdoptReply(db.(adopters := adopters), Success(Some(puppy)))
  }

  /** The adopters collection only ever grows, and by at most one record. */
  lemma AdoptAppendsAtMostOne(db: Db, sub: Submission)
    ensures var r := Adopt(db, sub);
      && |r.db.adopters.records| <= |db.adopters.records| + 1
      && r.db.adopters.records[..|db.adopters.records|] == db.adopters.records
  {
  }

  /** Every adopter refers to a puppy that is in the store. */
  predicate Linked(db: Db) {
    forall i :: 0 <= i < |db.adopters.records| ==> Puppies.HasId(db.puppies, db.adopters.records[i].puppyId)
  }

  /** Adopter ids are unique and below the adopters' counter. */
  predicate AdoptersValid(a: AdopterStore) {
    && (forall i, j :: 0 <= i < j < |a.records| ==> a.records[i].id != a.records[j].id)
    && (forall i :: 0 <= i < |a.records| ==> a.records[i].id < a.nextId)
  }

  /** `adopt` never creates an orphan: started from a linked database it
      leaves a linked one, and it keeps the adopters' ids fresh. */
  lemma AdoptKeepsLinked(db: Db, sub: Submission)
    ensures Linked(db) ==> Linked(Adopt(db, sub).db)
    ensures AdoptersValid(db.adopters) ==> AdoptersValid(Adopt(db, sub).db.adopters)
  {
    var r := Adopt(db, sub);
    if r.value.Success? && r.value.value.Some? {
      var n := |db.adopters.records|;
      assert r.db.adopters.records[n].puppyId == sub.id;
    }
  }

  /** Deleting a puppy does not touch the adopters that refer to it: in a
      valid store, deleting the puppy of any adopter leaves that adopter
      orphaned, so the link holds only when the adopter is created. */
  lemma DeleteOrphans(db: Db, i: nat)
    requires Puppies.Valid(db.puppies)
    requires i < |db.adopters.records|
    ensures !Linked(db.(puppies := Puppies.Delete(db.puppies, db.adopters.records[i].puppyId).store))
  {
    var id := db.adopters.records[i].puppyId;
    var after := Puppies.Delete(db.puppies, id).store;
    assert !Puppies.HasId(after, id);
  }
}
