/** The edits the form handlers make to the form data: setting one field,
 *  appending uploaded image references, removing one image, and the blank form. */
module Draft {
  import opened Seqs
  import opened Records

  /** The text inputs of the form, named as their `name` attributes are. */
  datatype Field =
    | Name | Age | Gender | HistorialClinico | Antecedentes
    | Sintomas | Diagnosticos | Tratamientos | Notas

  /** `formData[f]` for a text field. */
  function FieldValue(d: FormData, f: Field): string
  {
    match f
    case Name => d.name
    case Age => d.age
    case Gender => d.gender
    case HistorialClinico => d.historialClinico
    case Antecedentes => d.antecedentes
    case Sintomas => d.sintomas
    case Diagnosticos => d.diagnosticos
    case Tratamientos => d.tratamientos
    case Notas => d.notas
  }

  /** The initial form and the one the reset handler writes: every field empty, no images. */
  function Blank(): (d: FormData)
    ensures forall f :: FieldValue(d, f) == ""
    ensures d.images == []
  {
    FormData("", "", "", "", "", "", "", "", "", [])
  }

  /** `{ ...prev, [name]: value }`: the named field takes the value, nothing else changes. */
  function WithField(d: FormData, f: Field, v: string): (r: FormData)
    ensures FieldValue(r, f) == v
    ensures forall g :: g != f ==> FieldValue(r, g) == FieldValue(d, g)
    ensures r.images == d.images
  {
    match f
    case Name => d.(name := v)
    case Age => d.(age := v)
    case Gender => d.(gender := v)
    case HistorialClinico => d.(historialClinico := v)
    case Antecedentes => d.(antecedentes := v)
    case Sintomas => d.(sintomas := v)
    case Diagnosticos => d.(diagnosticos := v)
    case Tratamientos => d.(tratamientos := v)
    case Notas => d.(notas := v)
  }

  /** A second change to the same field overwrites the first. */
  lemma WithFieldLastWins(d: FormData, f: Field, v: string, w: string)
    ensures WithField(WithField(d, f, v), f, w) == WithField(d, f, w)
  {
  }

  /** Changes to two different fields can be made in either order. */
  lemma WithFieldCommutes(d: FormData, f: Field, v: string, g: Field, w: string)
    requires f != g
    ensures WithField(WithField(d, f, v), g, w) == WithField(WithField(d, g, w), f, v)
  {
  }

  /** Setting a field to the value it already has changes nothing. */
  lemma WithFieldSameValue(d: FormData, f: Field)
    ensures WithField(d, f, FieldValue(d, f)) == d
  {
  }

  /** The upload handler: when at least one file was chosen, the references made
   *  for the files (`urls`, one per file, in file order) are appended to the images. */
  function WithUploads(d: FormData, urls: seq<string>): (r: FormData)
    ensures |r.images| == |d.images| + |urls|
    ensures r.images[..|d.images|] == d.images
    ensures forall k :: 0 <= k < |urls| ==> r.images[|d.images| + k] == urls[k]
    ensures forall f :: FieldValue(r, f) == FieldValue(d, f)
    ensures urls == [] ==> r == d
  {
    if |urls| > 0 then d.(images := d.images + urls) else d
  }

  /** Two uploads in a row add their references in the order they were made. */
  lemma UploadsAccumulate(d: FormData, a: seq<string>, b: seq<string>)
    ensures WithUploads(WithUploads(d, a), b) == WithUploads(d, a + b)
  {
  }

  /** `removeImage(index)`: the images after `splice(index, 1)` on a copy; the text fields stay. */
  function WithoutImage(d: FormData, index: int): (r: FormData)
    ensures r.images == SpliceOne(d.images, index)
    ensures forall f :: FieldValue(r, f) == FieldValue(d, f)
  {
    d.(images := SpliceOne(d.images, index))
  }

  /** Removing an image at an index in range drops exactly that entry. */
  lemma WithoutImageInRange(d: FormData, index: nat)
    requires index < |d.images|
    ensures WithoutImage(d, index).images == d.images[..index] + d.images[index + 1..]
    ensures |WithoutImage(d, index).images| == |d.images| - 1
    ensures multiset(WithoutImage(d, index).images) + multiset{d.images[index]} == multiset(d.images)
  {
    SpliceOneRemovesOne(d.images, index);
  }

  /** Removing the image that a single upload just added takes the form back to what it was. */
  lemma RemoveUndoesUpload(d: FormData, url: string)
    ensures WithoutImage(WithUploads(d, [url]), |d.images|) == d
  {
  }
}
