/** The qualification records, the fixed environment table and the
    copy-on-write updates of the record list (add, edit, delete, and the
    form submission that chooses between add and edit). */
module Records {
  import opened Wrappers
  import opened Sequences
  import opened Calendar

  /** A qualification: one software version under test in one environment. */
  datatype Qualification = Qualification(
    id: int,
    name: string,
    team: string,
    description: string,
    startDate: Day,
    endDate: Day,
    environment: string,
    color: string,
    deployed: bool)

  datatype Environment = Environment(name: string, color: string)

  /** The fixed `environments` table. */
  const Environments: seq<Environment> := [
    Environment("simulation légère", "#3B82F6"),
    Environment("simulation lourde", "#10B981"),
    Environment("préexpo", "#F59E0B")
  ]

  /** The grey used when no environment matches. */
  const FallbackColor := "#6B7280"

  /** `environments.find(env => env.name === name)`: the first entry with that name. */
  function FindEnvironment(envs: seq<Environment>, name: string): (found: Option<Environment>)
    ensures found.None? <==> forall i :: 0 <= i < |envs| ==> envs[i].name != name
    ensures found.Some? ==> found.value in envs && found.value.name == name
    ensures found.Some? ==>
              exists i :: (0 <= i < |envs| && envs[i] == found.value &&
                           forall j :: 0 <= j < i ==> envs[j].name != name)
  {
    if envs == [] then None
    else if envs[0].name == name then Some(envs[0])
    else
      var found := FindEnvironment(envs[1..], name);
      assert found.Some? ==>
        exists i :: (0 <= i < |envs| - 1 && envs[1..][i] == found.value &&
                     forall j :: 0 <= j < i ==> envs[1..][j].name != name);
      assert found.Some? ==>
        exists i :: (1 <= i < |envs| && envs[i] == found.value &&
                     forall j :: 0 <= j < i ==> envs[j].name != name);
      found
  }

  /** `environments.find(...)?.color || "#6B7280"`. */
  function EnvironmentColor(environment: string): string {
    match FindEnvironment(Environments, environment)
    case Some(env) => if env.color != "" then env.color else FallbackColor
    case None => FallbackColor
  }

  /** The colour of a known environment is its table colour; every other name
      gets the grey fallback, which no table entry uses. */
  lemma EnvironmentColorSpec(environment: string)
    ensures forall i :: 0 <= i < |Environments| && Environments[i].name == environment ==>
              EnvironmentColor(environment) == Environments[i].color
    ensures EnvironmentColor(environment) == FallbackColor <==>
              forall i :: 0 <= i < |Environments| ==> Environments[i].name != environment
  {
    var found := FindEnvironment(Environments, environment);
    if found.Some? {
      assert found.value == Environments[0] || found.value == Environments[1] || found.value == Environments[2];
    }
  }

  /** The colour rule: a record's colour is the one derived from its environment. */
  predicate ColorDerived(q: Qualification) {
    q.color == EnvironmentColor(q.environment)
  }

  /** Re-derive the colour from the record's environment. */
  function Recolor(q: Qualification): (r: Qualification)
    ensures ColorDerived(r)
    ensures r.(color := q.color) == q
  {
    q.(color := EnvironmentColor(q.environment))
  }

  /** What the editor form supplies for a new record. */
  datatype Draft = Draft(
    name: string,
    team: string,
    description: string,
    environment: string,
    startDate: Day,
    endDate: Day,
    deployed: bool)

  /** `handleAddQualification`: the draft, with a fresh id (`Date.now()` in the
      application, a parameter here) and the colour of its environment, is
      appended to the list. */
  function AddQualification(qs: seq<Qualification>, draft: Draft, id: int): seq<Qualification> {
    qs + [Qualification(id, draft.name, draft.team, draft.description, draft.startDate,
                        draft.endDate, draft.environment, EnvironmentColor(draft.environment),
                        draft.deployed)]
  }

  /** `handleEditQualification`: every record with the edited id is replaced by
      the edited record with its colour re-derived; the others stay. */
  function EditQualification(qs: seq<Qualification>, updated: Qualification): seq<Qualification> {
    seq(|qs|, i requires 0 <= i < |qs| => if qs[i].id == updated.id then Recolor(updated) else qs[i])
  }

  /** `handleDeleteQualification`: keeps the records whose id differs. */
  function DeleteQualification(qs: seq<Qualification>, id: int): seq<Qualification> {
    Filter(qs, (q: Qualification) => q.id != id)
  }

  // ---------------------------------------------------------------------------
  // Invariants of the record list

  predicate UniqueIds(qs: seq<Qualification>) {
    forall i, j :: 0 <= i < j < |qs| ==> qs[i].id != qs[j].id
  }

  predicate AllColorsDerived(qs: seq<Qualification>) {
    forall i :: 0 <= i < |qs| ==> ColorDerived(qs[i])
  }

  /** Every record starts no later than it ends. */
  predicate AllDatesOrdered(qs: seq<Qualification>) {
    forall i :: 0 <= i < |qs| ==> qs[i].startDate <= qs[i].endDate
  }

  predicate HasId(qs: seq<Qualification>, id: int) {
    exists i :: 0 <= i < |qs| && qs[i].id == id
  }

  // ---------------------------------------------------------------------------
  // Add

  /** Adding appends one record built from the draft and keeps the old list as
      a prefix; the list's invariants survive when the new id is fresh. */
  lemma AddSpec(qs: seq<Qualification>, draft: Draft, id: int)
    ensures var r := AddQualification(qs, draft, id);
      |r| == |qs| + 1 && r[..|qs|] == qs &&
      r[|qs|].id == id && r[|qs|].name == draft.name && r[|qs|].team == draft.team &&
      r[|qs|].description == draft.description && r[|qs|].environment == draft.environment &&
      r[|qs|].startDate == draft.startDate && r[|qs|].endDate == draft.endDate &&
      r[|qs|].deployed == draft.deployed && ColorDerived(r[|qs|])
    ensures AllColorsDerived(qs) ==> AllColorsDerived(AddQualification(qs, draft, id))
    ensures UniqueIds(qs) && !HasId(qs, id) ==> UniqueIds(AddQualification(qs, draft, id))
    ensures AllDatesOrdered(qs) && draft.startDate <= draft.endDate ==>
              AllDatesOrdered(AddQualification(qs, draft, id))
  {
    var r := AddQualification(qs, draft, id);
    assert r[..|qs|] == qs;
    if UniqueIds(qs) && !HasId(qs, id) {
      forall i, j | 0 <= i < j < |r| ensures r[i].id != r[j].id {
        if j == |qs| {
          assert qs[i].id != id;
        }
      }
    }
  }

  /** Deleting a record just added with a fresh id gives back the old list. */
  lemma {:induction false} DeleteUndoesAdd(qs: seq<Qualification>, draft: Draft, id: int)
    requires !HasId(qs, id)
    ensures DeleteQualification(AddQualification(qs, draft, id), id) == qs
  {
    var added := AddQualification(qs, draft, id);
    var keep := (q: Qualification) => q.id != id;
    FilterConcat(qs, [added[|qs|]], keep);
    assert added == qs + [added[|qs|]];
    FilterAll(qs, keep);
    assert Filter([added[|qs|]], keep) == [];
  }

  // ---------------------------------------------------------------------------
  // Edit

  /** Editing keeps length, order and ids; it replaces exactly the records whose
      id is the edited one, by the edited record with its colour derived. */
  lemma EditSpec(qs: seq<Qualification>, updated: Qualification)
    ensures |EditQualification(qs, updated)| == |qs|
    ensures forall i :: 0 <= i < |qs| ==> EditQualification(qs, updated)[i].id == qs[i].id
    ensures forall i :: 0 <= i < |qs| && qs[i].id != updated.id ==> EditQualification(qs, updated)[i] == qs[i]
    ensures forall i :: 0 <= i < |qs| && qs[i].id == updated.id ==>
              EditQualification(qs, updated)[i] == updated.(color := EnvironmentColor(updated.environment))
    ensures UniqueIds(qs) ==> UniqueIds(EditQualification(qs, updated))
    ensures AllColorsDerived(qs) ==> AllColorsDerived(EditQualification(qs, updated))
    ensures AllDatesOrdered(qs) && updated.startDate <= updated.endDate ==>
              AllDatesOrdered(EditQualification(qs, updated))
  {
  }

  /** Editing with an id that no record has leaves the list as it is. */
  lemma EditUnknownId(qs: seq<Qualification>, updated: Qualification)
    requires !HasId(qs, updated.id)
    ensures EditQualification(qs, updated) == qs
  {
    assert forall i :: 0 <= i < |qs| ==> qs[i].id != updated.id;
  }

  /** Submitting the same edit twice is the same as submitting it once. */
  lemma EditIdempotent(qs: seq<Qualification>, updated: Qualification)
    ensures EditQualification(EditQualification(qs, updated), updated) == EditQualification(qs, updated)
  {
  }

  // ---------------------------------------------------------------------------
  // Delete

  /** Deleting removes exactly the records carrying the id, keeps every other
      occurrence and keeps their order. */
  lemma DeleteSpec(qs: seq<Qualification>, id: int)
    ensures forall q :: q in DeleteQualification(qs, id) ==> q in qs && q.id != id
    ensures forall q :: q in qs && q.id != id ==> q in DeleteQualification(qs, id)
    ensures forall q :: multiset(DeleteQualification(qs, id))[q] == if q.id != id then multiset(qs)[q] else 0
    ensures IsSubsequence(DeleteQualification(qs, id), qs)
    ensures !HasId(DeleteQualification(qs, id), id)
  {
    var keep := (q: Qualification) => q.id != id;
    forall q ensures q in Filter(qs, keep) <==> q in qs && keep(q) {
      FilterMembership(qs, keep, q);
    }
    forall q ensures multiset(Filter(qs, keep))[q] == if keep(q) then multiset(qs)[q] else 0 {
      FilterMultiplicity(qs, keep, q);
    }
    FilterIsSubsequence(qs, keep);
    var r := Filter(qs, keep);
    forall i | 0 <= i < |r| ensures r[i].id != id {
      assert r[i] in r;
    }
  }

  /** Deleting twice by the same id is deleting once. */
  lemma DeleteIdempotent(qs: seq<Qualification>, id: int)
    ensures DeleteQualification(DeleteQualification(qs, id), id) == DeleteQualification(qs, id)
  {
    FilterIdempotent(qs, (q: Qualification) => q.id != id);
  }

  /** Deletion keeps the list's invariants. */
  lemma DeletePreserves(qs: seq<Qualification>, id: int)
    ensures AllColorsDerived(qs) ==> AllColorsDerived(DeleteQualification(qs, id))
    ensures AllDatesOrdered(qs) ==> AllDatesOrdered(DeleteQualification(qs, id))
    ensures UniqueIds(qs) ==> UniqueIds(DeleteQualification(qs, id))
  {
    var keep := (q: Qualification) => q.id != id;
    var r := Filter(qs, keep);
    forall k | 0 <= k < |r| ensures r[k] in qs {
      FilterMembership(qs, keep, r[k]);
    }
    if UniqueIds(qs) {
      FilterKeepsUniqueIds(qs, keep);
    }
  }

  lemma {:induction false} FilterKeepsUniqueIds(qs: seq<Qualification>, p: Qualification -> bool)
    requires UniqueIds(qs)
    ensures UniqueIds(Filter(qs, p))
  {
    if qs != [] {
      FilterKeepsUniqueIds(qs[1..], p);
      var rest := Filter(qs[1..], p);
      forall k | 0 <= k < |rest| ensures rest[k].id != qs[0].id {
        FilterMembership(qs[1..], p, rest[k]);
        assert rest[k] in qs[1..];
      }
    }
  }

  // ---------------------------------------------------------------------------
  // Submitting the editor form

  /** The editor form. An empty or unparseable date field yields an invalid
      `Date`, modelled as `None`. */
  datatype Form = Form(
    name: string,
    team: string,
    description: string,
    environment: string,
    startDate: Option<Day>,
    endDate: Option<Day>,
    deployed: bool)

  /** The submit check exactly as the handler evaluates it: an invalid `Date`
      is an object, hence truthy, and every comparison with it is false. */
  predicate PassesSubmitCheckAsWritten(form: Form) {
    !(form.name == "" || form.team == "" ||
      (form.startDate.Some? && form.endDate.Some? && form.startDate.value > form.endDate.value))
  }

  /** The intended check: name and team present, both dates present, and the
      start no later than the end. */
  predicate IsValidSubmission(form: Form) {
    form.name != "" && form.team != "" &&
    form.startDate.Some? && form.endDate.Some? && form.startDate.value <= form.endDate.value
  }

  /** The as-written check lets a form with an empty start date through. */
  lemma EmptyDatePassesAsWritten()
    ensures var form := Form("v4.0.0", "Équipe A", "", "préexpo", None, Some(19990), false);
      PassesSubmitCheckAsWritten(form) && !IsValidSubmission(form)
  {
  }

  /** Apart from missing dates the two checks agree. */
  lemma SubmitChecksAgreeOnDates(form: Form)
    requires form.startDate.Some? && form.endDate.Some?
    ensures PassesSubmitCheckAsWritten(form) <==> IsValidSubmission(form)
  {
  }

  /** The submit button: reject an invalid form, otherwise edit the record
      being edited, or add a new one with id `newId`. */
  function Submit(qs: seq<Qualification>, editing: Option<Qualification>, form: Form, newId: int): seq<Qualification> {
    if !IsValidSubmission(form) then qs
    else match editing
      case Some(original) =>
        EditQualification(qs, original.(name := form.name, team := form.team,
                                         description := form.description, environment := form.environment,
                                         startDate := form.startDate.value, endDate := form.endDate.value,
                                         deployed := form.deployed))
      case None =>
        AddQualification(qs, Draft(form.name, form.team, form.description, form.environment,
                                   form.startDate.value, form.endDate.value, form.deployed), newId)
  }

  /** A rejected submission changes nothing; an accepted one keeps every
      invariant of the record list (given a fresh id for an addition). */
  lemma SubmitSpec(qs: seq<Qualification>, editing: Option<Qualification>, form: Form, newId: int)
    ensures !IsValidSubmission(form) ==> Submit(qs, editing, form, newId) == qs
    ensures IsValidSubmission(form) && editing.None? ==>
              |Submit(qs, editing, form, newId)| == |qs| + 1 && Submit(qs, editing, form, newId)[..|qs|] == qs
    ensures IsValidSubmission(form) && editing.Some? ==>
              |Submit(qs, editing, form, newId)| == |qs| &&
              forall i :: 0 <= i < |qs| ==> Submit(qs, editing, form, newId)[i].id == qs[i].id
    ensures AllDatesOrdered(qs) ==> AllDatesOrdered(Submit(qs, editing, form, newId))
    ensures AllColorsDerived(qs) ==> AllColorsDerived(Submit(qs, editing, form, newId))
    ensures UniqueIds(qs) && (editing.None? ==> !HasId(qs, newId)) ==>
              UniqueIds(Submit(qs, editing, form, newId))
  {
    if IsValidSubmission(form) {
      match editing
      case Some(original) =>
        EditSpec(qs, original.(name := form.name, team := form.team,
                               description := form.description, environment := form.environment,
                               startDate := form.startDate.value, endDate := form.endDate.value,
                               deployed := form.deployed));
      case None =>
        AddSpec(qs, Draft(form.name, form.team, form.description, form.environment,
                          form.startDate.value, form.endDate.value, form.deployed), newId);
    }
  }
}
