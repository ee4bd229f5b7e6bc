# Patient records: a Dafny model of the `App` component's store and form

The repository is a single React component, `src/App.tsx`, that keeps a list of
patient records and one form for creating or editing a record. This model
covers the logic in its event handlers. That logic has two parts:

- **the record list** (`records`): create prepends a record with a fresh id and
  creation time; update replaces, by id, the record being edited while keeping its
  id and creation time; delete filters out an id; search is a case-insensitive
  substring filter on the name or the diagnosis (`diagnosticos`);
- **the form** (`formData`, `isEditing`, `currentRecord`): set one field, append
  uploaded image references, remove one image, open a record for editing, reset,
  and submit, which always ends in a reset.

Layout:

- `seqs.dfy`, module `Seqs`: `Array.prototype.filter` as `Filter`, the
  order-preserving sub-list relation, and `splice(index, 1)` as `SpliceOne`,
  with the exact JavaScript index rules (a negative index counts from the end, an
  index past the end removes nothing).
- `text.dfy`, module `Text`: `toLowerCase` as `Lower` and `includes` as `Includes`,
  with `Includes` proved equal to "occurs at some position".
- `records.dfy`, module `Records`: the `PatientRecord` and form-data types. Also the
  record written by a submission (`Stamp`), the form a record is opened with
  (`FormOf`), and the list operations `Create`, `UpdateById`, `DeleteById` and
  `Search`, with their lemmas.
- `draft.dfy`, module `Draft`: the form fields, the blank form, and the field,
  upload and image-removal edits, with their lemmas.
- `app.dfy`, module `AppComponent`: class `App`. Each piece of React state is a
  field, and each handler is a method. A method's `modifies` clause names exactly
  the state its setters replace, and its `ensures` gives the new state as a
  function of the old one. Module `AppScenario` is a client of the class. It
  creates two records, searches with a differently cased term, and deletes one.

Inputs that come from the browser are parameters:

- `HandleSubmit(newId, now)` takes the `Date.now()` id and the `toISOString()` time.
- `HandleImageUpload(urls)` takes one `URL.createObjectURL` reference per chosen
  file, in file order.
- The constructor takes the already-parsed stored list, or `None` when storage has none.

### Behaviour of the code worth knowing

- Submitting while editing a record that has since been deleted raises no error.
  `records.map` finds no match, so the list stays as it was (`UpdateMissingIsIdentity`).
- `handleSubmit` does not check any field. Only the form's `required` attributes on
  name, age and gender do, and the browser enforces those. So `HandleSubmit`
  accepts any form data.
- Ids come from `Date.now()`, so two creates in the same millisecond get the same
  id. No operation assumes unique ids. Lemmas that need uniqueness take `IdsUnique`
  as a hypothesis. Create keeps ids unique when the new id is not already in use,
  and update and delete always keep them unique. When ids do collide, update and
  delete act on every record with that id, as the `UpdateById` and `DeleteById`
  contracts say.
- The id and creation time that an update keeps are those of `currentRecord`,
  the snapshot taken when editing started. They match the stored record's
  whenever that snapshot is in the list and ids are unique (`UpdateKeepsIdentity`).
- A stored record may lack `images`. Opening it for editing starts with `[]`, and
  saving it then writes `images: []`.
- `removeImage` with an index at or past the end of the image list changes
  nothing. A negative index counts from the end, and one below minus the length
  removes the first image (`Seqs.SpliceOne`).

## Model

| member | source | states |
|---|---|---|
| Seqs.Filter | src/App.tsx:152-161 | the filtered list is no longer than the input and holds exactly the input elements that pass the predicate |
| Seqs.FilterIsSubsequence | src/App.tsx:152-161 | filtering keeps the surviving elements in their original relative order |
| Seqs.FilterCount | src/App.tsx:152-161 | every copy of a passing element is kept, and no copy of a failing one |
| Seqs.FilterCounts | src/App.tsx:152-161 | the copy count of every element at once: kept in full when it passes, zero when it fails |
| Seqs.FilterIdempotent | src/App.tsx:152-161 | filtering twice with one predicate equals filtering once |
| Seqs.FilterAll | src/App.tsx:152-161 | a filter every element passes returns the whole list |
| Seqs.FilterAgree | src/App.tsx:158-161 | filters whose predicates agree on every element give the same list |
| Seqs.FilterCommutes | src/App.tsx:152-161 | two filters give the same list in either order |
| Seqs.SpliceStart | src/App.tsx:87 | the position `splice` acts on: a negative index counts from the end and is clamped at 0, a large index is clamped at the length |
| Seqs.SpliceOne | src/App.tsx:86-87 | an index in range removes exactly that element; a negative one removes the element counted from the end (the first when too negative); an index past the end, or any index on an empty list, changes nothing |
| Seqs.SpliceOneRemovesOne | src/App.tsx:86-87 | removing at an index in range takes exactly one copy of that element out of the multiset |
| Text.LowerChar | src/App.tsx:159-160 | a lower-cased character is never an ASCII or Latin-1 capital |
| Text.Lower | src/App.tsx:159-160 | lower-casing keeps the length and maps each character independently |
| Text.LowerIdempotent | src/App.tsx:159-160 | lower-casing twice equals lower-casing once |
| Text.OccursInTail | src/App.tsx:159-160 | when the text does not begin with the term, the term occurs in it exactly when it occurs in its tail |
| Text.Includes | src/App.tsx:159-160 | `includes` holds if and only if the term occurs at some position of the text |
| Text.IncludesEmpty | src/App.tsx:159-160 | every string includes the empty string |
| Records.FormOf | src/App.tsx:135-146 | the form copies every text field of the record, and its images are the record's images, or `[]` when the record has none |
| Records.Stamp | src/App.tsx:105-109 | the written record has the given id and creation time, an image list, and exactly the form's fields (opening it again gives back the form) |
| Records.StampFormOf | src/App.tsx:134-146 | a record with images, stamped from the form it opens with and its own id and time, is itself |
| Records.Create | src/App.tsx:105-110 | the new record is at index 0 with the form's fields, the given id and the given time; the old list follows unchanged; the length grows by one |
| Records.CreatePreservesUnique | src/App.tsx:105-110 | creating with an id not in use keeps the ids unique |
| Records.UpdateById | src/App.tsx:97-102 | length, order and every id are kept; a record with a different id is unchanged; a record with the id becomes the form stamped with the kept id and creation time |
| Records.UpdateMissingIsIdentity | src/App.tsx:97-102 | when no record carries the id, the list is unchanged |
| Records.UpdateIdempotent | src/App.tsx:97-102 | the same update applied twice equals applying it once |
| Records.UpdateKeepsIdentity | src/App.tsx:97-102 | when the edited record is in a list with unique ids, update keeps every record's id and creation time |
| Records.UpdatePreservesUnique | src/App.tsx:97-102 | update keeps the ids unique |
| Records.EditUnchangedIsIdentity | src/App.tsx:94-150 | opening a record that has images and submitting the form untouched leaves a list with unique ids unchanged |
| Records.UniqueCons | src/App.tsx:105-110 | a list with a record in front has unique ids exactly when the rest has unique ids and lacks the front record's id |
| Records.DeleteById | src/App.tsx:152-156 | after delete no record carries the id; a record survives if and only if it was present with another id; every copy of a survivor is kept; survivors keep their order |
| Records.DeleteIdempotent | src/App.tsx:154 | deleting the same id twice gives the same list as deleting once |
| Records.DeleteMissingIsIdentity | src/App.tsx:154 | deleting an id no record carries changes nothing |
| Records.DeleteUndoesCreate | src/App.tsx:105-156 | deleting the id just created with, when it was not in use, gives back the list from before the create |
| Records.DeletePreservesUnique | src/App.tsx:154 | delete keeps the ids unique |
| Records.Matches | src/App.tsx:159-160 | a record matches exactly when the lower-cased term occurs at some position of its lower-cased name or lower-cased diagnosis |
| Records.Search | src/App.tsx:158-161 | a record is in the result if and only if it is in the list and matches the term; every copy of a matching record is kept and none of another; list order is kept |
| Records.SearchEmptyTerm | src/App.tsx:158-161 | the empty term returns the whole list |
| Records.SearchIgnoresTermCase | src/App.tsx:158-161 | searching with the lower-cased term gives the same result as searching with the term |
| Records.SearchAfterDelete | src/App.tsx:152-161 | searching after a delete equals deleting from the search result |
| Records.SearchAfterCreate | src/App.tsx:105-161 | after a create, the search shows the new record first if it matches, then the old results |
| Draft.Blank | src/App.tsx:117-129 | the blank form has every text field empty and no images |
| Draft.WithField | src/App.tsx:62-68 | the named field takes the value; every other field and the images are unchanged |
| Draft.WithFieldLastWins | src/App.tsx:62-68 | of two changes to one field, the second wins |
| Draft.WithFieldCommutes | src/App.tsx:62-68 | changes to two different fields can be made in either order |
| Draft.WithFieldSameValue | src/App.tsx:62-68 | setting a field to its current value changes nothing |
| Draft.WithUploads | src/App.tsx:70-83 | the old images are a prefix; the new references follow in file order; the count grows by the number of files; no text field changes; no files change nothing |
| Draft.UploadsAccumulate | src/App.tsx:78-81 | two uploads in a row equal one upload of both file lists in order; there is no deduplication |
| Draft.WithoutImage | src/App.tsx:85-92 | the images are those after `splice(index, 1)`; no text field changes |
| Draft.WithoutImageInRange | src/App.tsx:85-92 | an index in range removes exactly that entry, the count drops by one, and one copy of that reference leaves the multiset |
| Draft.RemoveUndoesUpload | src/App.tsx:70-92 | removing the image one upload just appended gives back the form from before the upload |
| AppComponent.App.Pending | src/App.tsx:97 | submission updates exactly when editing with a current record, using that record's id and creation time |
| AppComponent.App.constructor | src/App.tsx:29-55 | the list is the stored list when there is one and empty otherwise; the form is blank; not editing; empty search term |
| AppComponent.App.HandleInputChange | src/App.tsx:62-68 | only the named form field changes; the records are untouched |
| AppComponent.App.HandleImageUpload | src/App.tsx:70-83 | the references are appended to the form's images in file order; the records are untouched |
| AppComponent.App.RemoveImage | src/App.tsx:85-92 | the form's images lose the entry `splice` removes; the records are untouched |
| AppComponent.App.ResetForm | src/App.tsx:117-132 | blank form, not editing, no current record; the records are untouched |
| AppComponent.App.HandleEdit | src/App.tsx:134-150 | the form becomes the record's fields and images (`[]` when it has none); editing that record; the records are untouched |
| AppComponent.App.HandleSubmit | src/App.tsx:94-115 | when editing, the list is updated by the current record's id and creation time, otherwise the form is prepended as a new record; either way the form ends blank, not editing, with no current record |
| AppComponent.App.HandleDelete | src/App.tsx:152-156 | the list is the old list without the id, and no record carries it |
| AppComponent.App.SetSearchTerm | src/App.tsx:182 | the search term is the typed text |
| AppComponent.App.FilteredRecords | src/App.tsx:158-161 | the shown records are, in list order, exactly the matching ones with every copy kept; the empty term shows all |

## Left out

- Persistence: the `localStorage` load and save effects and `JSON.parse`/`JSON.stringify`
  are browser I/O and library serialisation. The constructor receives the parsed
  list, or nothing when the key is absent or empty.
- `URL.createObjectURL`, `Date.now()` and `new Date().toISOString()` are browser
  calls. They are parameters here: opaque strings.
- The `confirm` dialog before a delete is UI. `HandleDelete` is the path after the
  user confirms.
- The browser enforces the `required` attributes on name, age and gender. They are
  not part of any handler, so the model does not check them.
- `Text.LowerChar`, `Text.Lower`: do not model all of Unicode `toLowerCase`. They lower-case only
  the capital letters of ASCII and Latin-1 (U+00C0 to U+00DE, except U+00D7).
  Every other character is unchanged, and no character maps to two characters.
- `Draft.WithField`: the handler writes `[name]: value` for whatever `name` the
  input has. The model allows only the nine text fields the form has inputs for.
- `Draft.WithoutImage`: the index is an integer. `splice`'s conversion of
  fractional or non-numeric indices is not modelled. The source copies the array
  and splices the copy in place. The model computes the spliced sequence directly,
  since no other reference to the copy exists.
- `isFormOpen` only controls whether the form is shown, so it is left out,
  together with all rendering. That includes the remove button on stored record cards,
  which calls `removeImage` and so acts on the form rather than on the card's record.
- Multi-tab or concurrent use of the same storage is left out.
