/** `ConfigManager`: the list of pipelines kept in memory, the bounds-checked
    edits on it, and the shape of the configuration document it reads and
    writes. Where the file lives, JSON encoding and the file I/O itself are
    not modelled: the file is given as what `json.load` produced. */
module ConfigStore {
  import opened Wrappers
  import opened Pipelines

  /** The document `save` writes and `load` reads, as far as `load` looks
      at it: an optional `version` string and an optional `pipelines` list. */
  datatype Document = Document(version: Option<string>, pipelines: Option<seq<Pipeline>>)

  /** The configuration file before `load`: absent, unreadable or not valid
      JSON (the error is caught and printed), valid JSON that is not an
      object (`.get` raises and is caught the same way), or an object. */
  datatype ConfigFile = Missing | Unreadable | NotObject | Parsed(doc: Document)

  const FormatVersion: string := "2.0"

  /** `load`: the stored list when the file holds an object with a
      `pipelines` list, and the empty list in every other case. */
  function Load(file: ConfigFile): (ps: seq<Pipeline>)
    ensures file.Missing? || file.Unreadable? || file.NotObject? ==> ps == []
    ensures file.Parsed? && file.doc.pipelines.None? ==> ps == []
    ensures file.Parsed? && file.doc.pipelines.Some? ==> ps == file.doc.pipelines.value
  {
    match file
    case Parsed(doc) => doc.pipelines.GetOr([])
    case _ => []
  }

  /** `save`: the document written holds the format version and the whole
      current list. */
  function Save(ps: seq<Pipeline>): (doc: Document)
    ensures doc.version == Some(FormatVersion)
    ensures doc.pipelines == Some(ps)
  {
    Document(Some(FormatVersion), Some(ps))
  }

  /** Loading what was saved gives the same list back. */
  lemma LoadSave(ps: seq<Pipeline>)
    ensures Load(Parsed(Save(ps))) == ps
  {
  }

  /** The list after an edit, and the document saved by it (`None` when
      the edit was refused and nothing was written). */
  datatype Edited = Edited(pipelines: seq<Pipeline>, written: Option<Document>)

  /** `add_pipeline`: the new pipeline goes at the end, the others stay as
      they were, and the list is saved. */
  function AddPipeline(ps: seq<Pipeline>, p: Pipeline): (e: Edited)
    ensures |e.pipelines| == |ps| + 1
    ensures e.pipelines[..|ps|] == ps && e.pipelines[|ps|] == p
    ensures e.written == Some(Save(e.pipelines))
  {
    var r := ps + [p];
    Edited(r, Some(Save(r)))
  }

  predicate InRange(ps: seq<Pipeline>, index: int) {
    0 <= index < |ps|
  }

  /** `update_pipeline`: an index inside the list replaces that entry alone
      and saves; any other index changes and saves nothing. */
  function UpdatePipeline(ps: seq<Pipeline>, index: int, p: Pipeline): (e: Edited)
    ensures InRange(ps, index) ==>
      && |e.pipelines| == |ps|
      && e.pipelines[index] == p
      && (forall j :: 0 <= j < |ps| && j != index ==> e.pipelines[j] == ps[j])
      && e.written == Some(Save(e.pipelines))
    ensures !InRange(ps, index) ==> e == Edited(ps, None)
  {
    if 0 <= index < |ps| then
      var r := ps[index := p];
      Edited(r, Some(Save(r)))
    else Edited(ps, None)
  }

  /** `delete_pipeline`: an index inside the list removes exactly that entry,
      keeping the others in order, and saves; any other index changes and
      saves nothing. */
  function DeletePipeline(ps: seq<Pipeline>, index: int): (e: Edited)
    ensures InRange(ps, index) ==>
      && |e.pipelines| == |ps| - 1
      && e.pipelines[..index] == ps[..index]
      && e.pipelines[index..] == ps[index + 1..]
      && e.written == Some(Save(e.pipelines))
    ensures !InRange(ps, index) ==> e == Edited(ps, None)
  {
    if 0 <= index < |ps| then
      var r := ps[..index] + ps[index + 1..];
      Edited(r, Some(Save(r)))
    else Edited(ps, None)
  }

  /** Deleting what was just added restores the list. */
  lemma DeleteUndoesAdd(ps: seq<Pipeline>, p: Pipeline)
    ensures DeletePipeline(AddPipeline(ps, p).pipelines, |ps|).pipelines == ps
  {
    var r := AddPipeline(ps, p).pipelines;
    assert r[..|ps|] == ps;
  }

  /** Deleting an entry takes exactly that one pipeline out of the list:
      as multisets, the list after plus the removed entry is the list before. */
  lemma DeleteRemovesOne(ps: seq<Pipeline>, index: int)
    requires InRange(ps, index)
    ensures multiset(DeletePipeline(ps, index).pipelines) + multiset{ps[index]} == multiset(ps)
  {
    assert ps == ps[..index] + [ps[index]] + ps[index + 1..];
  }

  /** Writing an entry back unchanged leaves the list as it was, and
      updating twice with the same pipeline is updating once. */
  lemma UpdateLaws(ps: seq<Pipeline>, index: int, p: Pipeline)
    ensures InRange(ps, index) ==> UpdatePipeline(ps, index, ps[index]).pipelines == ps
    ensures UpdatePipeline(UpdatePipeline(ps, index, p).pipelines, index, p).pipelines
         == UpdatePipeline(ps, index, p).pipelines
  {
  }
}
