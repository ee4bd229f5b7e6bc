/** The `App` component's state and its event handlers. Each piece of React
 *  state is a field; each handler is a method that replaces the fields its
 *  setters replace and no others. */
module AppComponent {
  import opened Records
  import opened Draft

  /** What submitting the form will do: create a fresh record, or update the
   *  record with this id, keeping this creation time. */
  datatype Submission = CreateNew | UpdateExisting(id: string, createdAt: string)

  class App {
    var records: seq<PatientRecord>
    var searchTerm: string
    var isEditing: bool
    var currentRecord: Option<PatientRecord>
    var formData: FormData

    /** An invariant of the reachable states: editing mode and the record being
     *  edited are set and cleared together. No handler needs it; `Pending` and
     *  `HandleSubmit` follow the source's test of both fields in every state. */
    ghost predicate Valid()
      reads this
    {
      isEditing == currentRecord.Some?
    }

    /** The branch `handleSubmit` takes in the current state. */
    function Pending(): (s: Submission)
      reads this
      ensures s.UpdateExisting? <==> isEditing && currentRecord.Some?
      ensures s.UpdateExisting? ==> s.id == currentRecord.value.id && s.createdAt == currentRecord.value.createdAt
    {
      if isEditing && currentRecord.Some?
      then UpdateExisting(currentRecord.value.id, currentRecord.value.createdAt)
      else CreateNew
    }

    /** Mounting the component: the record list is the stored list when storage
     *  holds one (`stored`, already parsed) and empty otherwise; the form is blank. */
    constructor (stored: Option<seq<PatientRecord>>)
      ensures records == if stored.Some? then stored.value else []
      ensures searchTerm == "" && formData == Blank()
      ensures !isEditing && currentRecord == None
      ensures Valid() && Pending() == CreateNew
    {
      records := if stored.Some? then stored.value else [];
      searchTerm := "";
      isEditing := false;
      currentRecord := None;
      formData := Blank();
    }

    /** `handleInputChange`: one input of the form changed. */
    method HandleInputChange(field: Field, value: string)
      modifies this`formData
      ensures formData == WithField(old(formData), field, value)
      ensures FieldValue(formData, field) == value
      ensures forall g :: g != field ==> FieldValue(formData, g) == FieldValue(old(formData), g)
      ensures records == old(records)
    {
      formData := WithField(formData, field, value);
    }

    /** `handleImageUpload`: `urls` holds the reference made for each chosen file, in file order. */
    method HandleImageUpload(urls: seq<string>)
      modifies this`formData
      ensures formData == WithUploads(old(formData), urls)
      ensures formData.images == old(formData).images + urls
      ensures records == old(records)
    {
      formData := WithUploads(formData, urls);
      assert formData.images == old(formData).images + urls;
    }

    /** `removeImage`: drop the image at `index` from the form. */
    method RemoveImage(index: int)
      modifies this`formData
      ensures formData == WithoutImage(old(formData), index)
      ensures 0 <= index < |old(formData).images| ==>
        formData.images == old(formData).images[..index] + old(formData).images[index + 1..]
      ensures records == old(records)
    {
      formData := WithoutImage(formData, index);
    }

    /** `resetForm`: blank form, not editing, no current record. */
    method ResetForm()
      modifies this`formData, this`isEditing, this`currentRecord
      ensures formData == Blank() && !isEditing && currentRecord == None
      ensures Valid() && Pending() == CreateNew
      ensures records == old(records)
    {
      formData := Blank();
      isEditing := false;
      currentRecord := None;
    }

    /** `handleEdit`: open `record` in the form. */
    method HandleEdit(record: PatientRecord)
      modifies this`formData, this`isEditing, this`currentRecord
      ensures formData == FormOf(record)
      ensures isEditing && currentRecord == Some(record)
      ensures Valid() && Pending() == UpdateExisting(record.id, record.createdAt)
      ensures records == old(records)
    {
      formData := FormOf(record);
      isEditing := true;
      currentRecord := Some(record);
    }

    /** `handleSubmit`: update the record being edited, or prepend a new record
     *  with id `newId` and creation time `now`; then reset the form. */
    method HandleSubmit(newId: string, now: string)
      modifies this`records, this`formData, this`isEditing, this`currentRecord
      ensures old(Pending()).CreateNew? ==> records == Create(old(records), old(formData), newId, now)
      ensures old(Pending()).UpdateExisting? ==>
        records == UpdateById(old(records), old(Pending()).id, old(Pending()).createdAt, old(formData))
      ensures formData == Blank() && !isEditing && currentRecord == None
      ensures Valid()
    {
      if isEditing && currentRecord.Some? {
        records := UpdateById(records, currentRecord.value.id, currentRecord.value.createdAt, formData);
      } else {
        records := Create(records, formData, newId, now);
      }
      ResetForm();
    }

    /** `handleDelete`, once the user has confirmed. */
    method HandleDelete(id: string)
      modifies this`records
      ensures records == DeleteById(old(records), id)
      ensures !HasId(records, id)
    {
      records := DeleteById(records, id);
    }

    /** The search box changed. */
    method SetSearchTerm(term: string)
      modifies this`searchTerm
      ensures searchTerm == term
    {
      searchTerm := term;
    }

    /** `filteredRecords`: the records, in list order, whose name or diagnosis
     *  contains the search term, ignoring case. */
    function FilteredRecords(): (r: seq<PatientRecord>)
      reads this
      ensures forall x :: x in r <==> x in records && Matches(x, searchTerm)
      ensures forall x :: multiset(r)[x] == if Matches(x, searchTerm) then multiset(records)[x] else 0
      ensures Seqs.IsSubsequence(r, records)
      ensures searchTerm == "" ==> r == records
    {
      SearchEmptyTerm(records);
      Search(records, searchTerm)
    }
  }
}

/** A client of the component: a record is created and found by a differently
 *  cased search, a second record with one image is added, and after the first
 *  is deleted the search finds nothing. */
module AppScenario {
  import opened Seqs
  import opened Records
  import opened Draft
  import opened AppComponent
  import opened Text

  const ana := PatientRecord("1", "Ana", "34", "F", "", "", "", "Gripe", "", "", Some([]), "t1")
  const luis := PatientRecord("2", "Luis", "", "", "", "", "", "", "", "", Some(["blob:a"]), "t2")

  lemma SearchGripe()
    ensures Search([luis, ana], "gripe") == [ana]
    ensures Search([luis], "gripe") == []
  {
    assert Lower("gripe") == "gripe";
    assert Lower("Gripe") == "gripe";
    assert StartsWith(Lower(ana.diagnosticos), Lower("gripe"));
    assert Matches(ana, "gripe");
    assert Lower("Luis") == "luis";
    assert !Includes("luis", "gripe");
    assert !Matches(luis, "gripe");
    var p := (x: PatientRecord) => Matches(x, "gripe");
    assert [luis, ana][1..] == [ana] && [ana][1..] == [];
    assert Filter([ana], p) == [ana];
    assert Filter([luis], p) == [];
    assert Filter([luis, ana], p) == Filter([ana], p);
  }

  lemma DeleteAna()
    ensures DeleteById([luis, ana], "1") == [luis]
  {
    var p := (x: PatientRecord) => x.id != "1";
    assert [luis, ana][1..] == [ana] && [ana][1..] == [];
    assert Filter([ana], p) == [];
    assert Filter([luis, ana], p) == [luis] + Filter([ana], p);
  }

  /** The form after typing Ana's name, age, gender and diagnosis into a blank form. */
  lemma AnaTyped()
    ensures WithField(WithField(WithField(WithField(Blank(), Name, "Ana"), Age, "34"), Gender, "F"), Diagnosticos, "Gripe") == FormOf(ana)
  {
  }

  /** The form after typing Luis's name into a blank form and uploading one image. */
  lemma LuisTyped()
    ensures WithUploads(WithField(Blank(), Name, "Luis"), ["blob:a"]) == FormOf(luis)
  {
  }

  /** Ana's record is typed and submitted, then Luis's with one image. */
  method EnterTwoRecords() returns (app: App)
    ensures fresh(app) && app.records == [luis, ana] && app.formData == Blank()
  {
    app := new App(None);
    app.HandleInputChange(Name, "Ana");
    app.HandleInputChange(Age, "34");
    app.HandleInputChange(Gender, "F");
    app.HandleInputChange(Diagnosticos, "Gripe");
    AnaTyped();
    app.HandleSubmit("1", "t1");
    StampFormOf(ana);
    assert app.records == [ana];

    app.HandleInputChange(Name, "Luis");
    app.HandleImageUpload(["blob:a"]);
    LuisTyped();
    app.HandleSubmit("2", "t2");
    StampFormOf(luis);
  }

  /** A differently cased search finds Ana's record alone, and nothing once it is deleted. */
  method Scenario()
  {
    var app := EnterTwoRecords();
    app.SetSearchTerm("gripe");
    SearchGripe();
    assert app.FilteredRecords() == [ana];

    DeleteAna();
    app.HandleDelete("1");
    assert app.records == [luis];
    assert app.FilteredRecords() == [];
  }
}
