/** The patient record, the form data it is built from, and the pure list
 *  operations behind the component's create, update, delete and search. */
module Records {
  import opened Seqs
  import opened Text

  datatype Option<T> = None | Some(value: T)

  /** A stored record. `images` is optional because a record read back from
   *  storage need not carry the field; the edit handler falls back to `[]`. */
  datatype PatientRecord = PatientRecord(
    id: string,
    name: string,
    age: string,
    gender: string,
    historialClinico: string,
    antecedentes: string,
    sintomas: string,
    diagnosticos: string,
    tratamientos: string,
    notas: string,
    images: Option<seq<string>>,
    createdAt: string)

  /** The form's contents (`formData`): every field of a record except `id` and `createdAt`. */
  datatype FormData = FormData(
    name: string,
    age: string,
    gender: string,
    historialClinico: string,
    antecedentes: string,
    sintomas: string,
    diagnosticos: string,
    tratamientos: string,
    notas: string,
    images: seq<string>)

  /** The form data that editing `r` starts from: every field copied, absent images read as `[]`. */
  function FormOf(r: PatientRecord): (d: FormData)
    ensures d.name == r.name && d.age == r.age && d.gender == r.gender
    ensures d.historialClinico == r.historialClinico && d.antecedentes == r.antecedentes
    ensures d.sintomas == r.sintomas && d.diagnosticos == r.diagnosticos
    ensures d.tratamientos == r.tratamientos && d.notas == r.notas
    ensures r.images.Some? ==> d.images == r.images.value
    ensures r.images.None? ==> d.images == []
  {
    FormData(r.name, r.age, r.gender, r.historialClinico, r.antecedentes, r.sintomas,
             r.diagnosticos, r.tratamientos, r.notas,
             if r.images.Some? then r.images.value else [])
  }

  /** `{ ...formData, id, createdAt }`: the record a submission writes. */
  function Stamp(d: FormData, id: string, createdAt: string): (r: PatientRecord)
    ensures r.id == id && r.createdAt == createdAt
    ensures r.images == Some(d.images)
    ensures FormOf(r) == d
  {
    PatientRecord(id, d.name, d.age, d.gender, d.historialClinico, d.antecedentes, d.sintomas,
                  d.diagnosticos, d.tratamientos, d.notas, Some(d.images), createdAt)
  }

  /** Stamping a record's own form data with its own id and timestamp rebuilds it. */
  lemma StampFormOf(r: PatientRecord)
    requires r.images.Some?
    ensures Stamp(FormOf(r), r.id, r.createdAt) == r
  {
  }

  /** Some record in `rs` carries `id`. */
  ghost predicate HasId(rs: seq<PatientRecord>, id: string)
  {
    exists r :: r in rs && r.id == id
  }

  /** No two records in `rs` share an id. */
  ghost predicate IdsUnique(rs: seq<PatientRecord>)
  {
    forall i, j :: 0 <= i < j < |rs| ==> rs[i].id != rs[j].id
  }

  lemma UniqueCons(x: PatientRecord, t: seq<PatientRecord>)
    ensures IdsUnique([x] + t) <==> !HasId(t, x.id) && IdsUnique(t)
  {
    var s := [x] + t;
    if IdsUnique(s) {
      forall y | y in t ensures y.id != x.id {
        var j :| 0 <= j < |t| && t[j] == y;
        assert s[0] == x && s[j + 1] == y;
      }
      forall i, j | 0 <= i < j < |t| ensures t[i].id != t[j].id {
        assert s[i + 1] == t[i] && s[j + 1] == t[j];
      }
    }
    if !HasId(t, x.id) && IdsUnique(t) {
      forall i, j | 0 <= i < j < |s| ensures s[i].id != s[j].id {
        assert s[j] == t[j - 1];
        if i == 0 {
          assert s[j] in t;
        } else {
          assert s[i] == t[i - 1];
        }
      }
    }
  }

  // ---------------------------------------------------------------- create

  /** `[newRecord, ...records]`: the new record first, the old list after it unchanged. */
  function Create(rs: seq<PatientRecord>, d: FormData, id: string, createdAt: string): (r: seq<PatientRecord>)
    ensures |r| == |rs| + 1
    ensures r[0] == Stamp(d, id, createdAt) && r[0].id == id && r[0].createdAt == createdAt
    ensures FormOf(r[0]) == d
    ensures r[1..] == rs
  {
    [Stamp(d, id, createdAt)] + rs
  }

  /** Creating with an id that is not in use keeps the ids unique. */
  lemma CreatePreservesUnique(rs: seq<PatientRecord>, d: FormData, id: string, createdAt: string)
    requires IdsUnique(rs) && !HasId(rs, id)
    ensures IdsUnique(Create(rs, d, id, createdAt))
  {
  }

  // ---------------------------------------------------------------- update

  /** `records.map(record => record.id === id ? { ...d, id, createdAt } : record)`. */
  function UpdateById(rs: seq<PatientRecord>, id: string, createdAt: string, d: FormData): (r: seq<PatientRecord>)
    ensures |r| == |rs|
    ensures forall i :: 0 <= i < |rs| ==> r[i].id == rs[i].id
    ensures forall i :: 0 <= i < |rs| && rs[i].id != id ==> r[i] == rs[i]
    ensures forall i :: 0 <= i < |rs| && rs[i].id == id ==> r[i] == Stamp(d, id, createdAt)
    decreases |rs|
  {
    if rs == [] then []
    else [if rs[0].id == id then Stamp(d, id, createdAt) else rs[0]] + UpdateById(rs[1..], id, createdAt, d)
  }

  /** When no record carries the id, update leaves the list as it was. */
  lemma UpdateMissingIsIdentity(rs: seq<PatientRecord>, id: string, createdAt: string, d: FormData)
    requires !HasId(rs, id)
    ensures UpdateById(rs, id, createdAt, d) == rs
  {
  }

  /** Applying the same update twice gives the same list as applying it once. */
  lemma UpdateIdempotent(rs: seq<PatientRecord>, id: string, createdAt: string, d: FormData)
    ensures UpdateById(UpdateById(rs, id, createdAt, d), id, createdAt, d) == UpdateById(rs, id, createdAt, d)
  {
  }

  /** Updating the record that was opened for editing keeps every record's id and
   *  creation time, as long as the ids in the list are unique. */
  lemma UpdateKeepsIdentity(rs: seq<PatientRecord>, cur: PatientRecord, d: FormData)
    requires IdsUnique(rs) && cur in rs
    ensures forall i :: 0 <= i < |rs| ==>
      UpdateById(rs, cur.id, cur.createdAt, d)[i].id == rs[i].id &&
      UpdateById(rs, cur.id, cur.createdAt, d)[i].createdAt == rs[i].createdAt
  {
  }

  /** Update keeps the ids unique. */
  lemma UpdatePreservesUnique(rs: seq<PatientRecord>, id: string, createdAt: string, d: FormData)
    requires IdsUnique(rs)
    ensures IdsUnique(UpdateById(rs, id, createdAt, d))
  {
  }

  /** Opening a record for editing and submitting the form untouched leaves the
   *  list as it was, provided the ids are unique and the record had an image list. */
  lemma EditUnchangedIsIdentity(rs: seq<PatientRecord>, cur: PatientRecord)
    requires IdsUnique(rs) && cur in rs && cur.images.Some?
    ensures UpdateById(rs, cur.id, cur.createdAt, FormOf(cur)) == rs
  {
  }

  // ---------------------------------------------------------------- delete

  /** `records.filter(record => record.id !== id)`: no record with the id is
   *  left, every other record keeps all its copies, and the survivors keep their order. */
  function DeleteById(rs: seq<PatientRecord>, id: string): (r: seq<PatientRecord>)
    ensures !HasId(r, id)
    ensures forall x :: x in r <==> x in rs && x.id != id
    ensures forall x :: multiset(r)[x] == if x.id != id then multiset(rs)[x] else 0
    ensures IsSubsequence(r, rs)
  {
    var p := (x: PatientRecord) => x.id != id;
    FilterIsSubsequence(rs, p);
    FilterCounts(rs, p);
    Filter(rs, p)
  }

  /** Deleting the same id twice gives the same list as deleting it once. */
  lemma DeleteIdempotent(rs: seq<PatientRecord>, id: string)
    ensures DeleteById(DeleteById(rs, id), id) == DeleteById(rs, id)
  {
    FilterIdempotent(rs, (x: PatientRecord) => x.id != id);
  }

  /** Deleting an id no record carries changes nothing. */
  lemma DeleteMissingIsIdentity(rs: seq<PatientRecord>, id: string)
    requires !HasId(rs, id)
    ensures DeleteById(rs, id) == rs
  {
    FilterAll(rs, (x: PatientRecord) => x.id != id);
  }

  /** Deleting the id just created with takes the list back to what it was before the create. */
  lemma DeleteUndoesCreate(rs: seq<PatientRecord>, d: FormData, id: string, createdAt: string)
    requires !HasId(rs, id)
    ensures DeleteById(Create(rs, d, id, createdAt), id) == rs
  {
    DeleteMissingIsIdentity(rs, id);
    assert Create(rs, d, id, createdAt)[1..] == rs;
  }

  /** Delete keeps the ids unique. */
  lemma {:induction false} DeletePreservesUnique(rs: seq<PatientRecord>, id: string)
    requires IdsUnique(rs)
    ensures IdsUnique(DeleteById(rs, id))
    decreases |rs|
  {
    if rs != [] {
      assert rs == [rs[0]] + rs[1..];
      UniqueCons(rs[0], rs[1..]);
      DeletePreservesUnique(rs[1..], id);
      if rs[0].id != id {
        UniqueCons(rs[0], DeleteById(rs[1..], id));
      }
    }
  }

  // ---------------------------------------------------------------- search

  /** The search predicate: the lower-cased name or diagnosis includes the
   *  lower-cased term, that is, the term occurs at some position of one of them. */
  predicate Matches(r: PatientRecord, term: string)
    ensures Matches(r, term) <==> Occurs(Lower(r.name), Lower(term)) || Occurs(Lower(r.diagnosticos), Lower(term))
  {
    Includes(Lower(r.name), Lower(term)) || Includes(Lower(r.diagnosticos), Lower(term))
  }

  /** `filteredRecords`: in list order, every copy of each record that matches
   *  the term, and nothing else. */
  function Search(rs: seq<PatientRecord>, term: string): (r: seq<PatientRecord>)
    ensures forall x :: x in r <==> x in rs && Matches(x, term)
    ensures forall x :: multiset(r)[x] == if Matches(x, term) then multiset(rs)[x] else 0
    ensures IsSubsequence(r, rs)
  {
    var p := (x: PatientRecord) => Matches(x, term);
    FilterIsSubsequence(rs, p);
    FilterCounts(rs, p);
    Filter(rs, p)
  }

  /** The empty term returns the whole list. */
  lemma SearchEmptyTerm(rs: seq<PatientRecord>)
    ensures Search(rs, "") == rs
  {
    forall x | x in rs ensures Matches(x, "") {
      IncludesEmpty(Lower(x.name));
    }
    FilterAll(rs, (x: PatientRecord) => Matches(x, ""));
  }

  /** The case of the term does not matter. */
  lemma SearchIgnoresTermCase(rs: seq<PatientRecord>, term: string)
    ensures Search(rs, Lower(term)) == Search(rs, term)
  {
    LowerIdempotent(term);
    FilterAgree(rs, (x: PatientRecord) => Matches(x, Lower(term)), (x: PatientRecord) => Matches(x, term));
  }

  /** Search and delete commute: deleting and then searching gives the search results without the deleted id. */
  lemma SearchAfterDelete(rs: seq<PatientRecord>, term: string, id: string)
    ensures Search(DeleteById(rs, id), term) == DeleteById(Search(rs, term), id)
  {
    FilterCommutes(rs, (x: PatientRecord) => x.id != id, (x: PatientRecord) => Matches(x, term));
  }

  /** After a create, search shows the new record first when it matches, followed by the old results. */
  lemma SearchAfterCreate(rs: seq<PatientRecord>, d: FormData, id: string, createdAt: string, term: string)
    ensures Search(Create(rs, d, id, createdAt), term) ==
      (if Matches(Stamp(d, id, createdAt), term) then [Stamp(d, id, createdAt)] else []) + Search(rs, term)
  {
  }
}
