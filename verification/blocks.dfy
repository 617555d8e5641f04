/**
 Transfers of file data that bypass the window of the volume.
*/
module Blocks {
  import opened Bytes
  import opened Geometry
  import opened DiskIO
  import opened FatMap
  import opened WriteBehind
  import opened Volumes

  // Sectors [s, s + n) lie in the data area and are not in the window.
  ghost predicate Bypass(fs: Volume, s: nat, n: nat)
    reads fs`view, fs`fat, fs`winsect
  {
    && fs.g.fatbase + fs.g.FatSectors() <= s && s + n <= |fs.view|
    && !(s <= fs.winsect < s + n)
  }

  // ... and hold no metadata.
  ghost predicate IsFileData(fs: Volume, s: nat, n: nat)
    reads fs`view, fs`fat, fs`winsect, fs`meta
  {
    Bypass(fs, s, n) && forall t: nat :: s <= t < s + n ==> t !in fs.meta
  }

  method ReadData(fs: Volume, buf: array<byte>, s: nat) returns (ok: bool)
    requires fs.Valid() && buf.Length == 512 && buf != fs.win && Bypass(fs, s, 1)
    modifies buf
    ensures fs.Valid() && ok && buf[..] == fs.view[s]
  {
    ok := fs.disk.Read(buf, s);
  }

  method ReadDataRun(fs: Volume, s: nat, n: nat) returns (ok: bool, data: seq<byte>)
    requires fs.Valid() && Bypass(fs, s, n)
    ensures ok && data == Gather(fs.view, s, n)
  {
    ok, data := fs.disk.ReadRun(s, n);
    forall t | s <= t < s + n
      ensures fs.disk.sectors[t] == fs.view[t]
    {
    }
  }

  method WriteData(fs: Volume, buf: array<byte>, s: nat) returns (ok: bool)
    requires fs.Valid() && buf.Length == 512 && IsFileData(fs, s, 1)
    modifies fs`view, fs.disk
    ensures fs.Valid() && ok && fs.view == old(fs.view)[s := buf[..]]
    ensures old(fs.disk.log) <= fs.disk.log
  {
    hide Chronicle, Agrees, MetaGrows, FatOf, FatMap.Entry, Layout.Checked;
    ghost var log := fs.disk.log;
    ok := fs.disk.Write(buf, s);
    fs.view := fs.view[s := buf[..]];
    assert s !in fs.meta;
    KeepsInvariant(fs, old(fs.view), old(fs.disk.sectors), log);
  }

  method WriteDataRun(fs: Volume, data: seq<byte>, s: nat, n: nat) returns (ok: bool)
    requires fs.Valid() && 512 * n <= |data| && IsFileData(fs, s, n)
    modifies fs`view, fs.disk
    ensures fs.Valid() && ok && fs.view == Overwrite(old(fs.view), s, data, n)
    ensures old(fs.disk.log) <= fs.disk.log
  {
    hide Chronicle, Agrees, MetaGrows, FatOf, FatMap.Entry, Layout.Checked;
    ghost var log := fs.disk.log;
    ok := fs.disk.WriteRun(data, s, n);
    fs.view := Overwrite(fs.view, s, data, n);
    KeepsInvariant(fs, old(fs.view), old(fs.disk.sectors), log);
  }

  // Changing the same non-metadata sectors of the data area on the disk and in the view keeps the volume valid.
  lemma KeepsInvariant(fs: Volume, v: seq<Sector>, d: seq<Sector>, log: seq<seq<Sector>>)
    requires fs.win.Length == 512 && |v| == |d| && fs.g.Sound(|v|) && fs.g.fatbase + fs.g.FatSectors() <= |v|
    requires fs.winsect < |v| && |fs.view| == |v| && |fs.disk.sectors| == |d| && fs.fat == FatOf(fs.g, v)
    requires forall s :: s in fs.meta ==> s < |v| && fs.g.Cacheable(s)
    requires forall s: nat :: fs.g.InFat(s) ==> s in fs.meta
    requires |fs.steps| > 0 && Agrees(v, fs.steps[|fs.steps| - 1]) && fs.steps[|fs.steps| - 1].meta == fs.meta
    requires MetaGrows(fs.steps, fs.first, fs.meta)
    requires |log| > 0 && log[|log| - 1] == d && Chronicle(fs.steps, log) && fs.disk.log == log + [fs.disk.sectors]
    requires fs.mirrored ==> Mirrored(fs.g, v)
    requires fs.wflag ==> fs.g.Cacheable(fs.winsect) && v == Store(fs.g, d, fs.winsect, fs.win[..])
    requires !fs.wflag ==> v == d && (fs.winsect != 0 ==> fs.win[..] == v[fs.winsect])
    requires forall t :: 0 <= t < |v| ==>
               if fs.disk.sectors[t] == d[t] then fs.view[t] == v[t]
               else t !in fs.meta && t != fs.winsect && !fs.g.InFats(t) && fs.view[t] == fs.disk.sectors[t]
    ensures fs.Valid()
  {
    hide *;
    FatsKept(fs.g, v, fs.view);
    if fs.wflag { StoreMoves(fs.g, v, d, fs.view, fs.disk.sectors, fs.winsect, fs.win[..]); }
    FatFrame(fs.g, v, fs.view);
    var k := ExplainedBy(fs.steps, log, d);
    StillExplained(fs.steps, fs.first, fs.meta, k, d, fs.disk.sectors);
    StillExplained(fs.steps, fs.first, fs.meta, |fs.steps| - 1, v, fs.view);
    if fs.mirrored { MirroredFrame(fs.g, v, fs.view); }
    ChronicleWrite(fs.steps, log, fs.disk.sectors, k);
    SameIfClean(fs.g, v, d, fs.view, fs.disk.sectors);
    ValidAgain(fs);
  }

  lemma FatsKept(g: Layout, v: seq<Sector>, w: seq<Sector>)
    requires g.Sound(|v|) && |w| == |v|
    requires forall t :: 0 <= t < |v| && w[t] != v[t] ==> !g.InFats(t)
    ensures g.Checked(|v|) && g.fatbase + g.fsize <= g.fatbase + g.FatSectors() <= |v|
    ensures forall s :: g.InFat(s) ==> v[s] == w[s]
    ensures forall s :: g.InFats(s) ==> w[s] == v[s]
  {
    g.FatsInside(|v|);
  }

  lemma SameIfClean(g: Layout, v: seq<Sector>, d: seq<Sector>, w: seq<Sector>, e: seq<Sector>)
    requires |v| == |d| == |w| == |e|
    requires forall t :: 0 <= t < |v| ==> if e[t] == d[t] then w[t] == v[t] else w[t] == e[t]
    ensures v == d ==> w == e
  {
  }

  lemma ValidAgain(fs: Volume)
    requires fs.win.Length == 512 && |fs.disk.sectors| == |fs.view| && fs.g.Sound(|fs.view|)
    requires fs.g.fatbase + fs.g.FatSectors() <= |fs.view| && fs.g.Checked(|fs.view|)
    requires fs.fat == FatOf(fs.g, fs.view) && fs.winsect < |fs.view|
    requires forall s :: s in fs.meta ==> s < |fs.view| && fs.g.Cacheable(s)
    requires forall s: nat :: fs.g.InFat(s) ==> s in fs.meta
    requires |fs.steps| > 0 && Agrees(fs.view, fs.steps[|fs.steps| - 1]) && fs.steps[|fs.steps| - 1].meta == fs.meta
    requires MetaGrows(fs.steps, fs.first, fs.meta) && (fs.mirrored ==> Mirrored(fs.g, fs.view))
    requires |fs.disk.log| > 0 && fs.disk.log[|fs.disk.log| - 1] == fs.disk.sectors && Chronicle(fs.steps, fs.disk.log)
    requires fs.wflag ==> fs.g.Cacheable(fs.winsect) && fs.view == Store(fs.g, fs.disk.sectors, fs.winsect, fs.win[..])
    requires !fs.wflag ==> fs.view == fs.disk.sectors && (fs.winsect != 0 ==> fs.win[..] == fs.view[fs.winsect])
    ensures fs.Valid()
  {
    hide Agrees, MetaGrows, Mirrored, Chronicle, Store, FatOf, Layout.Cacheable;
  }

  // Sectors d with a dirty sector s, after changes to other sectors than that and its mirror.
  lemma StoreMoves(g: Layout, v: seq<Sector>, d: seq<Sector>, w: seq<Sector>, e: seq<Sector>, s: nat, x: Sector)
    requires g.fatbase + g.FatSectors() <= |v| == |d| == |w| == |e| && s < |v| && v == Store(g, d, s, x)
    requires forall t :: 0 <= t < |v| ==> if e[t] == d[t] then w[t] == v[t] else t != s && !g.InFats(t) && w[t] == e[t]
    ensures w == Store(g, e, s, x)
  {
  }

  // Changing sectors without metadata does not matter to a step.
  lemma StillExplained(steps: seq<Snapshot>, first: set<nat>, meta: set<nat>, k: nat, v: seq<Sector>, w: seq<Sector>)
    requires k < |steps| && MetaGrows(steps, first, meta) && Agrees(v, steps[k]) && |w| == |v|
    requires forall t :: 0 <= t < |v| && w[t] != v[t] ==> t !in meta
    ensures Agrees(w, steps[k])
  {
  }

  lemma ExplainedBy(steps: seq<Snapshot>, log: seq<seq<Sector>>, d: seq<Sector>) returns (k: nat)
    requires |log| > 0 && log[|log| - 1] == d && Chronicle(steps, log)
    ensures k < |steps| && Agrees(d, steps[k])
  {
    k :| 0 <= k < |steps| && Agrees(d, steps[k]);
  }
}
