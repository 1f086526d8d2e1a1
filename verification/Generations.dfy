/** The on-disk state of one hybrid store and what opening it yields.

    Every durable thing is a value: component images are opaque, and a digest is the
    content it digests, so digests are collision-free by construction. */
module Generations {
  import opened Wrappers

  const DEFAULT_SHORTLIST: nat := 256

  datatype TreeImage = TreeImage(dim: nat, count: nat, body: int)
  datatype SketchImage = SketchImage(dim: nat, count: nat, body: int)
  datatype Memory = Memory(tree: TreeImage, sketch: SketchImage, dim: nat, shortlist: nat)

  /** What `HybridMemory` guarantees of itself: two layers of one size, and a usable shortlist. */
  predicate Coupled(m: Memory) {
    m.tree.dim == m.sketch.dim == m.dim && m.tree.count == m.sketch.count && m.shortlist > 0
  }

  datatype File =
    | TreeFile(tree: TreeImage)
    | SketchFile(sketch: SketchImage)
    | ManifestFile(manifest: Manifest)
    | PointerFile(generation: nat, manifestHash: Digest)
    | Torn

  datatype Digest = Digest(content: File)

  datatype Manifest = Manifest(generation: nat, dim: nat, items: nat, shortlist: nat, fingerprint: Option<string>,
                               treeHash: Digest, sketchHash: Digest)

  datatype Dir = Dir(tree: Option<File>, sketch: Option<File>, manifest: Option<File>)

  const EMPTY_DIR := Dir(None, None, None)

  /** The store root: published and orphan generations, staging directories, pointer
      temporaries, the pointers, and the two files of a v0.4 store. */
  datatype Disk = Disk(generations: map<nat, Dir>, staging: map<nat, Dir>, temps: map<nat, File>, nextNonce: nat,
                       current: Option<File>, previous: Option<File>,
                       legacyTree: Option<File>, legacySketch: Option<File>)

  datatype OpenError =
    | BadPointer | NotADirectory | NoManifest | ManifestHashMismatch | BadManifest | GenerationMismatch
    | DimensionMismatch | TooManyItems | Unbound | FingerprintMismatch | MissingComponent
    | TreeHashMismatch | SketchHashMismatch | CorruptComponent | CountMismatch | NoPointer | StrictLegacy

  datatype Request = Request(dim: nat, fingerprint: Option<string>, maxRecords: nat)

  // -- opening -------------------------------------------------------------------

  function LoadComponents(dir: Dir, dim: nat): Result<(TreeImage, SketchImage), OpenError> {
    if dir.tree.None? || dir.sketch.None? then Err(MissingComponent)
    else match (dir.tree.value, dir.sketch.value)
      case (TreeFile(t), SketchFile(s)) => if t.dim == dim && s.dim == dim then Ok((t, s)) else Err(DimensionMismatch)
      case _ => Err(CorruptComponent)
  }

  function OpenGeneration(d: Disk, generation: nat, manifestHash: Digest, q: Request): Result<Memory, OpenError> {
    if generation !in d.generations then Err(NotADirectory)
    else
      var dir := d.generations[generation];
      if dir.manifest.None? then Err(NoManifest)
      else if Digest(dir.manifest.value) != manifestHash then Err(ManifestHashMismatch)
      else if !dir.manifest.value.ManifestFile? || dir.manifest.value.manifest.shortlist == 0 then Err(BadManifest)
      else
        var m := dir.manifest.value.manifest;
        if m.generation != generation then Err(GenerationMismatch)
        else if m.dim != q.dim then Err(DimensionMismatch)
        else if m.items > q.maxRecords then Err(TooManyItems)
        else if q.fingerprint.Some? && m.fingerprint.None? then Err(Unbound)
        else if q.fingerprint.Some? && m.fingerprint != q.fingerprint then Err(FingerprintMismatch)
        else if dir.tree.None? || dir.sketch.None? then Err(MissingComponent)
        else if Digest(dir.tree.value) != m.treeHash then Err(TreeHashMismatch)
        else if Digest(dir.sketch.value) != m.sketchHash then Err(SketchHashMismatch)
        else
          var (t, s) :- LoadComponents(dir, q.dim);
          if t.count != m.items || s.count != m.items then Err(CountMismatch)
          else Ok(Memory(t, s, q.dim, if m.shortlist == 0 then 1 else m.shortlist))
  }

  function OpenPointer(d: Disk, pointer: File, q: Request): Result<Memory, OpenError> {
    match pointer
    case PointerFile(g, h) => OpenGeneration(d, g, h, q)
    case _ => Err(BadPointer)
  }

  /** The pointer readers obey: CURRENT, or where renames cannot replace a file (not
      Unix) the pointer that was moved aside while CURRENT is absent. */
  function Authority(d: Disk, unix: bool): Option<File> {
    if d.current.Some? then d.current else if !unix then d.previous else None
  }

  function Open(d: Disk, unix: bool, q: Request): Result<Memory, OpenError> {
    var authority := Authority(d, unix);
    if authority.Some? then OpenPointer(d, authority.value, q)
    else if d.generations.Keys != {} then Err(NoPointer)
    else if q.fingerprint.Some? then Err(StrictLegacy)
    else
      var (t, s) :- LoadComponents(Dir(d.legacyTree, d.legacySketch, None), q.dim);
      Ok(Memory(t, s, q.dim, DEFAULT_SHORTLIST))
  }

  /** Without a pointer and a generation the v0.4 files are read: exactly a tree and a sketch
      of the asked dimension, with the default shortlist of 256, and never under a
      fingerprint. */
  lemma LegacyOpensIff(d: Disk, unix: bool, q: Request, m: Memory)
    requires Authority(d, unix).None? && d.generations.Keys == {}
    ensures Open(d, unix, q) == Ok(m) <==>
      && q.fingerprint.None? && m.dim == m.tree.dim == m.sketch.dim == q.dim && m.shortlist == 256
      && d.legacyTree == Some(TreeFile(m.tree)) && d.legacySketch == Some(SketchFile(m.sketch))
  {
  }

  /** Readers obey CURRENT. The moved-aside pointer counts off Unix only, and there only
      while CURRENT is missing. */
  lemma ReadersPointer(d: Disk, moved: File, unix: bool, q: Request)
    ensures unix || d.current.Some? ==> Open(d.(previous := Some(moved)), unix, q) == Open(d, unix, q)
    ensures d.current.None? ==> Open(d.(previous := Some(moved)), false, q) == OpenPointer(d, moved, q)
    ensures d.current.Some? ==> Open(d, unix, q) == OpenPointer(d, d.current.value, q)
  {
    hide LoadComponents;
  }

  // -- complete generations -------------------------------------------------------

  function ManifestOf(m: Memory, fingerprint: Option<string>, generation: nat): Manifest {
    Manifest(generation, m.dim, m.sketch.count, m.shortlist, fingerprint, Digest(TreeFile(m.tree)), Digest(SketchFile(m.sketch)))
  }

  function DirOf(m: Memory, fingerprint: Option<string>, generation: nat): Dir {
    Dir(Some(TreeFile(m.tree)), Some(SketchFile(m.sketch)), Some(ManifestFile(ManifestOf(m, fingerprint, generation))))
  }

  function PointerTo(m: Memory, fingerprint: Option<string>, generation: nat): File {
    PointerFile(generation, Digest(ManifestFile(ManifestOf(m, fingerprint, generation))))
  }

  /** `pointer` names a generation that holds exactly `m`. */
  ghost predicate Names(d: Disk, pointer: File, m: Memory, fingerprint: Option<string>) {
    && pointer.PointerFile?
    && pointer.generation in d.generations
    && d.generations[pointer.generation] == DirOf(m, fingerprint, pointer.generation)
    && pointer == PointerTo(m, fingerprint, pointer.generation)
  }

  predicate Asks(q: Request, m: Memory, fingerprint: Option<string>) {
    q.dim == m.dim && m.sketch.count <= q.maxRecords && (q.fingerprint.None? || q.fingerprint == fingerprint)
  }

  /** A named generation opens to the memory it was written from, in full. */
  lemma NamedOpens(d: Disk, unix: bool, pointer: File, m: Memory, fingerprint: Option<string>, q: Request)
    requires Coupled(m) && Names(d, pointer, m, fingerprint) && Authority(d, unix) == Some(pointer)
    ensures Asks(q, m, fingerprint) ==> Open(d, unix, q) == Ok(m)
    ensures Open(d, unix, q).Ok? ==> Asks(q, m, fingerprint)
  {
  }

  /** Opening accepts nothing else: whatever a pointer opens to has the digests its
      manifest recorded, so the two components were staged together. */
  lemma OpenedIsBound(d: Disk, pointer: File, q: Request)
    requires OpenPointer(d, pointer, q).Ok?
    ensures pointer.PointerFile? && pointer.generation in d.generations
    ensures var got := OpenPointer(d, pointer, q).value;
      exists fingerprint :: Names(d, pointer, got, fingerprint) && Asks(q, got, fingerprint) && Coupled(got)
  {
    var dir := d.generations[pointer.generation];
    var m := dir.manifest.value.manifest;
    assert Names(d, pointer, OpenPointer(d, pointer, q).value, m.fingerprint);
  }
}
