/** Consent forms: who has handed in everything, counted in one pass over the records. */
module Consent {
  datatype Status = Pending | Submitted | Verified

  datatype Form = Form(id: string, required: bool)
  datatype Record = Record(formId: string, person: string, status: Status)

  predicate IsComplete(s: Status) {
    s == Submitted || s == Verified
  }

  // ----- One person at a time -----------------------------------------------------------------

  function Done(records: seq<Record>, person: string): set<string> {
    set r | r in records && r.person == person && IsComplete(r.status) :: r.formId
  }

  /** The required forms a person has not handed in, in the order of the list. */
  function MissingFormsFor(person: string, forms: seq<Form>, records: seq<Record>): (ids: seq<string>)
    ensures forall id :: id in ids <==> Form(id, true) in forms && id !in Done(records, person)
    ensures forall id :: id in ids <==>
              Form(id, true) in forms && forall r :: r in records && r.person == person && r.formId == id ==> r.status == Pending
  {
    if forms == [] then []
    else
      (if forms[0].required && forms[0].id !in Done(records, person) then [forms[0].id] else [])
      + MissingFormsFor(person, forms[1..], records)
  }

  function People(records: seq<Record>): set<string> {
    set r | r in records :: r.person
  }

  function Complete(forms: seq<Form>, records: seq<Record>): set<string> {
    set p | p in People(records) && MissingFormsFor(p, forms, records) == []
  }

  function Outstanding(forms: seq<Form>, records: seq<Record>): set<string> {
    set p | p in People(records) && MissingFormsFor(p, forms, records) != []
  }

  function RequiredIds(forms: seq<Form>): set<string> {
    set f | f in forms && f.required :: f.id
  }

  function Count(records: seq<Record>, formId: string, verified: bool): nat {
    if records == [] then 0
    else
      var n := |records| - 1;
      var r := records[n];
      Count(records[..n], formId, verified)
      + if r.formId == formId && (if verified then r.status == Verified else IsComplete(r.status)) then 1 else 0
  }

  /** The places of the records of a form that are handed in, or that are verified. */
  function Places(records: seq<Record>, formId: string, verified: bool): set<nat> {
    set i: nat | i < |records| && records[i].formId == formId
                 && (if verified then records[i].status == Verified else records[i].status != Pending)
  }

  lemma OneMorePlace(records: seq<Record>, formId: string, verified: bool)
    requires records != []
    ensures var n := |records| - 1;
            var r := records[n];
            var counts := r.formId == formId && if verified then r.status == Verified else r.status != Pending;
            && Places(records, formId, verified) == Places(records[..n], formId, verified) + (if counts then {n} else {})
            && n !in Places(records[..n], formId, verified)
  {
  }

  /** A form's counts are the numbers of its records handed in, and verified. */
  lemma {:induction false} CountIs(records: seq<Record>, formId: string, verified: bool)
    ensures Count(records, formId, verified) == |Places(records, formId, verified)|
  {
    if records != [] {
      OneMorePlace(records, formId, verified);
      CountIs(records[..|records| - 1], formId, verified);
      hide Places;
    }
  }

  // ----- All at once --------------------------------------------------------------------------

  datatype FormLine = FormLine(formId: string, submitted: nat, verified: nat)

  datatype Summary = Summary(requiredForms: nat, totalForms: nat, peopleTracked: nat, fullyComplete: nat,
                             outstanding: int, perForm: seq<FormLine>)

  /** The Map from a person to the forms handed in; `names` is the order its entries came in. */
  method CompletedForms(records: seq<Record>) returns (people: map<string, set<string>>, names: seq<string>)
    ensures people.Keys == People(records) && forall p :: p in people ==> people[p] == Done(records, p)
    ensures forall p :: p in names <==> p in people
    ensures forall i, j :: 0 <= i < j < |names| ==> names[i] != names[j]
  {
    people, names := map[], [];
    for i := 0 to |records|
      invariant people.Keys == People(records[..i])
      invariant forall p :: p in people ==> people[p] == Done(records[..i], p)
      invariant forall p :: p in names <==> p in people
      invariant forall i, j :: 0 <= i < j < |names| ==> names[i] != names[j]
    {
      var r := records[i];
      assert records[..i + 1] == records[..i] + [r];
      forall p { OneMoreDone(records[..i], r, p); }
      if r.person !in people {
        people := people[r.person := {}];
        names := names + [r.person];
      }
      if IsComplete(r.status) {
        people := people[r.person := people[r.person] + {r.formId}];
      }
    }
    assert records[..|records|] == records;
  }

  lemma OneMoreDone(records: seq<Record>, r: Record, p: string)
    ensures Done(records + [r], p) == Done(records, p) + if r.person == p && IsComplete(r.status) then {r.formId} else {}
    ensures People(records + [r]) == People(records) + {r.person}
    ensures p !in People(records) ==> Done(records, p) == {}
  {
  }

  method CountComplete(forms: seq<Form>, records: seq<Record>, people: map<string, set<string>>, names: seq<string>)
    returns (fullyComplete: nat)
    requires people.Keys == People(records) && forall p :: p in people ==> people[p] == Done(records, p)
    requires forall p :: p in names <==> p in people
    requires forall i, j :: 0 <= i < j < |names| ==> names[i] != names[j]
    ensures fullyComplete == |Complete(forms, records)|
  {
    hide Done, MissingFormsFor, People, RequiredIds;
    var requiredFormIds := RequiredIds(forms);
    fullyComplete := 0;
    ghost var counted: set<string> := {};
    for i := 0 to |names|
      invariant forall p :: p in counted <==> p in names[..i] && p in Complete(forms, records)
      invariant fullyComplete == |counted|
    {
      var p := names[i];
      assert p in names && p !in names[..i];
      assert names[..i + 1] == names[..i] + [p];
      EveryRequiredIffNoneMissing(p, forms, records);
      if requiredFormIds <= people[p] {
        fullyComplete := fullyComplete + 1;
        counted := counted + {p};
      }
    }
    assert names[..|names|] == names;
    assert counted == Complete(forms, records);
  }

  /** The pass over the records agrees with looking at each person afresh. */
  method SummarizeConsent(forms: seq<Form>, records: seq<Record>) returns (s: Summary)
    ensures s.fullyComplete == |Complete(forms, records)| && s.outstanding == |Outstanding(forms, records)|
    ensures s.peopleTracked == |People(records)| && s.requiredForms == |RequiredIds(forms)| && s.totalForms == |forms|
    ensures |s.perForm| == |forms|
    ensures forall i :: 0 <= i < |forms| ==>
              s.perForm[i] == FormLine(forms[i].id, Count(records, forms[i].id, false), Count(records, forms[i].id, true))
  {
    hide Done, MissingFormsFor, Count;
    var requiredFormIds := RequiredIds(forms);
    var perForm := seq(|forms|, i requires 0 <= i < |forms| =>
      FormLine(forms[i].id, Count(records, forms[i].id, false), Count(records, forms[i].id, true)));
    var people, names := CompletedForms(records);
    var fullyComplete := CountComplete(forms, records, people, names);
    EverybodyIsOneOrTheOther(forms, records);
    s := Summary(|requiredFormIds|, |forms|, |people.Keys|, fullyComplete, |people.Keys| - fullyComplete, perForm);
  }

  lemma EverybodyIsOneOrTheOther(forms: seq<Form>, records: seq<Record>)
    ensures |People(records)| == |Complete(forms, records)| + |Outstanding(forms, records)|
  {
    hide MissingFormsFor, People;
    assert People(records) == Complete(forms, records) + Outstanding(forms, records);
    assert Complete(forms, records) !! Outstanding(forms, records);
  }

  lemma EveryRequiredIffNoneMissing(p: string, forms: seq<Form>, records: seq<Record>)
    ensures RequiredIds(forms) <= Done(records, p) <==> MissingFormsFor(p, forms, records) == []
  {
    var missing := MissingFormsFor(p, forms, records);
    hide Done;
    if missing != [] {
      assert missing[0] in missing && Form(missing[0], true) in forms;
      assert missing[0] in RequiredIds(forms);
    }
    forall id | id in RequiredIds(forms) && missing == [] ensures id in Done(records, p) {
      assert Form(id, true) in forms;
      assert id !in missing;
    }
  }

  /** The counts do not depend on the order of the records, nor on records listed twice. */
  lemma OrderDoesNotMatter(forms: seq<Form>, a: seq<Record>, b: seq<Record>)
    requires forall r :: r in a <==> r in b
    ensures People(a) == People(b) && Complete(forms, a) == Complete(forms, b)
  {
    assert People(a) == People(b);
    forall p ensures MissingFormsFor(p, forms, a) == MissingFormsFor(p, forms, b) {
      assert Done(a, p) == Done(b, p);
      SameDoneSameMissing(p, forms, a, b);
    }
  }

  lemma {:induction false} SameDoneSameMissing(p: string, forms: seq<Form>, a: seq<Record>, b: seq<Record>)
    requires Done(a, p) == Done(b, p)
    ensures MissingFormsFor(p, forms, a) == MissingFormsFor(p, forms, b)
  {
    if forms != [] { SameDoneSameMissing(p, forms[1..], a, b); }
  }

  /** A form handed in never makes a person less complete. */
  lemma HandingInHelps(forms: seq<Form>, records: seq<Record>, r: Record, p: string)
    ensures forall id :: id in MissingFormsFor(p, forms, records + [r]) ==> id in MissingFormsFor(p, forms, records)
    ensures r.person == p && IsComplete(r.status) ==> r.formId !in MissingFormsFor(p, forms, records + [r])
  {
    OneMoreDone(records, r, p);
  }
}
