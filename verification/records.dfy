/** The per-parameter record (`docment`, `anno`, `default`), how it is built
    from a signature parameter (`_get_full`) and how a parsed numpy-style
    docstring is merged into it (`_merge_doc`, `_merge_docs`). */
module Records {
  import opened Wrappers
  import opened PyText

  /** A Python object, as far as this code looks at it: `Parameter.empty`, or
      an object with its type's name, its text and its truth value. */
  datatype Value = Empty | Obj(typeName: string, repr: string, truthy: bool)

  /** `bool(v)`. `Parameter.empty` is a class, and classes are true. */
  predicate Truthy(v: Value) {
    match v
    case Empty => true
    case Obj(_, _, t) => t
  }

  /** `type(v)`: a class, named after the value's type. */
  function TypeOf(v: Value): (t: Value)
    requires v.Obj?
    ensures t.Obj? && Truthy(t) && t.repr == v.typeName
  {
    Obj("type", v.typeName, true)
  }

  /** A `str` object, false exactly when empty. */
  function Str(s: string): (v: Value)
    ensures Truthy(v) <==> s != ""
  {
    Obj("str", s, s != "")
  }

  /** The doc text is there in Python's sense: neither `None` nor `""`. */
  predicate HasDoc(doc: Option<string>) {
    doc.Some? && doc.value != ""
  }

  /** The record kept for each parameter name (and for `return`). */
  datatype Docment = Docment(doc: Option<string>, anno: Value, default: Value)

  /** An entry of a docstring section: its declared type and description lines. */
  datatype Entry = Entry(typ: string, desc: seq<string>)

  /** The two sections of a parsed numpy-style docstring that are used:
      `Parameters` by name, and the single `Returns` entry, absent when the
      section is empty. */
  datatype Docstring = Docstring(parameters: map<string, Entry>, returnSection: Option<Entry>)

  /** `_get_full(anno, name, default, docs)`. */
  function GetFull(anno: Value, name: string, default: Value, docs: map<string, Option<string>>)
    : (r: Docment)
    ensures r.default == default
    ensures r.doc == (if name in docs then docs[name] else None)
    ensures anno != Empty ==> r.anno == anno
    ensures anno == Empty ==> (r.anno == Empty <==> default == Empty)
    ensures anno == Empty && default != Empty ==> r.anno == TypeOf(default)
  {
    var a := if anno == Empty && default != Empty then TypeOf(default) else anno;
    Docment(Lookup(docs, name).GetOr(None), a, default)
  }

  /** The annotation is one `_merge_doc` will replace: false, or empty. */
  predicate MissingAnno(anno: Value) {
    !Truthy(anno) || anno == Empty
  }

  /** `_merge_doc(dm, npdoc)`: fill in what is missing from a docstring entry. */
  function MergeDoc(dm: Docment, npdoc: Option<Entry>): (r: Docment)
    ensures r.default == dm.default
    ensures npdoc.None? ==> r == dm
    ensures !MissingAnno(dm.anno) ==> r.anno == dm.anno
    ensures HasDoc(dm.doc) ==> r.doc == dm.doc
    ensures npdoc.Some? && MissingAnno(dm.anno) ==> r.anno == Str(npdoc.value.typ)
    ensures npdoc.Some? && !HasDoc(dm.doc) ==> r.doc == Some(Join(npdoc.value.desc, "\n"))
  {
    match npdoc
    case None => dm
    case Some(e) =>
      var anno := if MissingAnno(dm.anno) then Str(e.typ) else dm.anno;
      var doc := if HasDoc(dm.doc) then dm.doc else Some(Join(e.desc, "\n"));
      Docment(doc, anno, dm.default)
  }

  /** Merging the same entry a second time changes nothing. */
  lemma MergeDocIdempotent(dm: Docment, npdoc: Option<Entry>)
    ensures MergeDoc(MergeDoc(dm, npdoc), npdoc) == MergeDoc(dm, npdoc)
  {
    if npdoc.Some? {
      var once := MergeDoc(dm, npdoc);
      var twice := MergeDoc(once, npdoc);
      assert twice.anno == once.anno;
      assert twice.doc == once.doc;
    }
  }

  /** What an earlier merge put in place, a later merge keeps: the first
      entry with a description and the first with a true type decide. */
  lemma MergeDocFirstWins(dm: Docment, e1: Entry, e2: Entry)
    requires !HasDoc(dm.doc) && MissingAnno(dm.anno)
    ensures var r := MergeDoc(MergeDoc(dm, Some(e1)), Some(e2));
      && r.default == dm.default
      && r.doc == Some(Join(if Join(e1.desc, "\n") != "" then e1.desc else e2.desc, "\n"))
      && r.anno == Str(if e1.typ != "" then e1.typ else e2.typ)
  {
    var once := MergeDoc(dm, Some(e1));
    assert once.doc == Some(Join(e1.desc, "\n"));
    assert once.anno == Str(e1.typ);
  }

  /** `_merge_docs(dms, npdocs)`: every record merged with its `Parameters`
      entry, and the `return` record further with the `Returns` entry. */
  function MergeDocs(dms: map<string, Docment>, nps: Docstring): (r: map<string, Docment>)
    ensures r.Keys == dms.Keys
    ensures forall nm :: nm in dms && nm != "return" ==>
      r[nm] == MergeDoc(dms[nm], Lookup(nps.parameters, nm))
    ensures "return" in dms ==>
      r["return"] == MergeDoc(MergeDoc(dms["return"], Lookup(nps.parameters, "return")), nps.returnSection)
    ensures forall nm :: nm in dms ==> r[nm].default == dms[nm].default
    ensures forall nm :: nm in dms && HasDoc(dms[nm].doc) ==> r[nm].doc == dms[nm].doc
    ensures forall nm :: nm in dms && !MissingAnno(dms[nm].anno) ==> r[nm].anno == dms[nm].anno
  {
    // `_merge_doc` updates its record in place, so the `return` record that
    // meets the `Returns` entry is the one already merged with `Parameters`.
    var params := map nm | nm in dms :: MergeDoc(dms[nm], Lookup(nps.parameters, nm));
    if "return" in dms then params["return" := MergeDoc(params["return"], nps.returnSection)]
    else params
  }

  /** Names that only the docstring mentions never appear. */
  lemma DocstringOnlyNamesDropped(dms: map<string, Docment>, nps: Docstring, nm: string)
    requires nm in nps.parameters && nm !in dms
    ensures nm !in MergeDocs(dms, nps)
  {
  }
}
