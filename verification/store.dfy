/**
 * The image widget's buffers: the working copy the filters rewrite, the
 * backup "restore" copies back, and the dirty flag that says whether the
 * working copy has changed since it was loaded or last saved. Files on
 * disk are a map from names to contents; writing one is an update of the
 * map.
 */
module Store {
  import opened Bytes
  import opened BmpHeader
  import opened Pixels
  import opened Filters

  type Disk = map<string, seq<byte>>

  /** An open image. */
  datatype Widget = Widget(name: string, content: seq<byte>, backup: seq<byte>, dirty: bool, header: Header)

  /** The store invariant: both buffers have the file's size, and a clean working copy equals the backup. */
  predicate Valid(w: Widget)
  {
    |w.backup| == |w.content| && (!w.dirty ==> w.content == w.backup)
  }

  /** Can the header's pixel array be filtered in place in this buffer? */
  predicate Filterable(h: Header, file: seq<byte>)
  {
    h.width >= 0 && h.offBits >= 0 && (h.bitCount == 8 || h.bitCount == 24) && Fits(LayoutOf(h), file)
  }

  /** Both buffers hold the pixel array the header describes. */
  predicate Ready(w: Widget)
  {
    Filterable(w.header, w.content) && Filterable(w.header, w.backup)
  }

  /**
   * Opening a file: the working copy and the backup both become its bytes,
   * the widget starts clean, and the header is decoded; a file without the
   * "BM" signature or with a bit count other than 8 or 24 is rejected.
   */
  function Load(name: string, disk: Disk): (r: Result<Widget>)
    requires name in disk && |disk[name]| >= HeaderReadEnd
    ensures r.Ok? <==> Decode(disk[name]).Ok?
    ensures r.Err? ==> r.error == Decode(disk[name]).error
    ensures r.Ok? ==>
      && Valid(r.value) && !r.value.dirty && r.value.name == name
      && r.value.content == disk[name] && r.value.backup == disk[name]
      && r.value.header == Decode(disk[name]).value
  {
    var file := disk[name];
    match Decode(file)
    case Err(e) => Err(e)
    case Ok(h) => Ok(Widget(name, file, file, false, h))
  }

  /** Both buttons' passes: the widget is marked dirty and the working copy filtered in place. */
  function ApplyFilter(w: Widget, p: Pass): (v: Widget)
    requires ValidPass(p) && Filterable(w.header, w.content)
    ensures v.dirty && Filterable(v.header, v.content)
    ensures Valid(w) ==> Valid(v)
    ensures Ready(w) ==> Ready(v)
    ensures v.name == w.name && v.backup == w.backup && v.header == w.header
    ensures v.content == Filter(p, LayoutOf(w.header), w.content)
  {
    w.(content := Filter(p, LayoutOf(w.header), w.content), dirty := true)
  }

  /**
   * Saving: a dirty working copy is written under the widget's name and
   * becomes the new backup, and the widget is clean again; a clean widget
   * writes nothing.
   */
  function Save(w: Widget, disk: Disk): (r: (Widget, Disk))
    ensures Valid(w) ==> Valid(r.0)
    ensures !r.0.dirty && r.0.content == w.content
    ensures r.0.name == w.name && r.0.header == w.header
    ensures w.dirty ==> r.0.backup == w.content
    ensures w.dirty ==> r.1 == disk[w.name := w.content]
    ensures !w.dirty ==> r == (w, disk)
  {
    if w.dirty then (w.(backup := w.content, dirty := false), disk[w.name := w.content])
    else (w, disk)
  }

  /**
   * Saving under a new name: the working copy is always written there and
   * becomes the backup, the widget takes the new name and is clean.
   */
  function SaveAs(w: Widget, disk: Disk, newName: string): (r: (Widget, Disk))
    ensures Valid(r.0) && !r.0.dirty && r.0.name == newName
    ensures r.0.content == w.content && r.0.backup == w.content && r.0.header == w.header
    ensures r.1 == disk[newName := w.content]
    ensures newName in r.1 && r.1[newName] == r.0.content
  {
    (w.(name := newName, backup := w.content, dirty := false), disk[newName := w.content])
  }

  /**
   * Restoring: a dirty working copy is replaced by the backup. The flag is
   * left set, so a later save still writes.
   */
  function Restore(w: Widget): (v: Widget)
    ensures w.dirty ==> v.content == w.backup
    ensures !w.dirty ==> v == w
    ensures v.dirty == w.dirty && v.backup == w.backup && v.name == w.name && v.header == w.header
    ensures Valid(w) ==> Valid(v) && v.content == w.backup
    ensures Ready(w) ==> Ready(v)
  {
    if w.dirty then w.(content := w.backup) else w
  }

  /** The buttons a user presses once an image is open. */
  datatype Action = Median(level: int) | AdaptiveMedian | SaveFile | SaveFileAs(newName: string) | RestoreFile

  /** The buttons offer the 3x3, 5x5 and 7x7 fixed filters only. */
  predicate ValidAction(a: Action)
  {
    a.Median? ==> a.level in {3, 5, 7}
  }

  function PassOf(a: Action): (p: Pass)
    requires ValidAction(a) && (a.Median? || a.AdaptiveMedian?)
    ensures ValidPass(p)
  {
    if a.Median? then Fixed(a.level) else Adaptive
  }

  /** One button press. */
  function Press(w: Widget, disk: Disk, a: Action): (r: (Widget, Disk))
    requires Ready(w) && ValidAction(a)
    ensures Ready(r.0) && r.0.header == w.header
    ensures Valid(w) ==> Valid(r.0)
  {
    match a
    case Median(_) => (ApplyFilter(w, PassOf(a)), disk)
    case AdaptiveMedian => (ApplyFilter(w, PassOf(a)), disk)
    case SaveFile => Save(w, disk)
    case SaveFileAs(n) => SaveAs(w, disk, n)
    case RestoreFile => (Restore(w), disk)
  }

  /** A sequence of button presses, first to last. */
  function Run(w: Widget, disk: Disk, acts: seq<Action>): (r: (Widget, Disk))
    requires Ready(w) && forall k | 0 <= k < |acts| :: ValidAction(acts[k])
    ensures Ready(r.0) && r.0.header == w.header
    ensures Valid(w) ==> Valid(r.0)
    decreases |acts|
  {
    if acts == [] then (w, disk)
    else
      var s := Press(w, disk, acts[0]);
      Run(s.0, s.1, acts[1..])
  }

  predicate IsFilter(a: Action)
  {
    a.Median? || a.AdaptiveMedian?
  }

  /** Filters change the working copy only: the backup and the disk stay as they were. */
  lemma {:induction false} FiltersKeepBackup(w: Widget, disk: Disk, acts: seq<Action>)
    requires Ready(w) && forall k | 0 <= k < |acts| :: ValidAction(acts[k]) && IsFilter(acts[k])
    ensures Run(w, disk, acts).0.backup == w.backup && Run(w, disk, acts).1 == disk
    ensures Run(w, disk, acts).0.name == w.name
    ensures acts != [] ==> Run(w, disk, acts).0.dirty
    ensures acts == [] ==> Run(w, disk, acts).0 == w
    decreases |acts|
  {
    if acts != [] {
      var s := Press(w, disk, acts[0]);
      FiltersKeepBackup(s.0, s.1, acts[1..]);
    }
  }

  /**
   * Restore undoes any run of filters: afterwards the working copy is the
   * backup; from a clean widget, that is the image as it was.
   */
  lemma RestoreUndoesFilters(w: Widget, disk: Disk, acts: seq<Action>)
    requires Valid(w) && Ready(w) && forall k | 0 <= k < |acts| :: ValidAction(acts[k]) && IsFilter(acts[k])
    ensures Restore(Run(w, disk, acts).0).content == w.backup
    ensures !w.dirty ==> Restore(Run(w, disk, acts).0).content == w.content
  {
    FiltersKeepBackup(w, disk, acts);
  }

  /** After a save the file under the widget's name holds the working copy, if the save wrote it. */
  lemma SaveWritesContent(w: Widget, disk: Disk)
    ensures w.dirty || w.name in disk ==> w.name in Save(w, disk).1
    ensures w.dirty ==> Save(w, disk).1[w.name] == w.content
    ensures Save(w, disk).1.Keys == disk.Keys + (if w.dirty then {w.name} else {})
  {
  }

  /** A second save does nothing, and a restore right after a save changes nothing. */
  lemma SaveSettles(w: Widget, disk: Disk)
    requires Valid(w)
    ensures Save(Save(w, disk).0, Save(w, disk).1) == Save(w, disk)
    ensures Restore(Save(w, disk).0) == Save(w, disk).0
  {
  }
}
