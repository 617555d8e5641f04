/**
 Synchronizing a file and opening it again: the new file object has the contents of the old.
*/
module Reopening {
  import opened Bytes
  import opened Geometry
  import opened DiskIO
  import opened FatMap
  import opened Volumes
  import opened Entries
  import opened FileMap
  import opened Files

  // Open the file whose entry is slot o of directory sector s; cs is the chain the entry names.
  method OpenEntry(fs: Volume, s: nat, o: nat, withSeek: bool, r: bool, w: bool, ghost cs: seq<dword>) returns (h: File)
    requires fs.Valid() && s in fs.meta && !fs.g.InFats(s) && 0 < s < |fs.view| && o < 16
    requires var e := SlotAt(fs.view[s], o);
             && ChainFrom(fs.g, fs.fat, StartCluster(e), cs) && FileSize(e) <= 512 * Capacity(fs.g, cs)
    requires fs.g.nFatent >= 2 && forall i, t :: 0 <= i < |cs| && t in fs.meta ==> !fs.g.InCluster(cs[i], t)
    modifies fs`winsect, fs`wflag, fs.win, fs.disk
    ensures fresh(h) && fresh(h.buf) && h.fs == fs && h.Valid() && h.dirSect == s && h.dirSlot == o
    ensures h.seeking == withSeek
    ensures h.canRead == r && h.canWrite == w && !h.error && !h.written && h.fptr == 0 && h.chain == cs
    ensures h.fsize == FileSize(SlotAt(fs.view[s], o)) && fs.g.Checked(|fs.view|) && Proper(fs.g, cs)
    ensures h.contents == Data(fs.g, fs.view, cs, h.fsize)
    ensures old(fs.disk.log) <= fs.disk.log
  {
    hide *;
    var _ := fs.MoveWindow(s);
    EntryShown(fs, s, o);
    var e := SlotAt(fs.win[..], o);
    MayOpen(fs, cs);
    h := new File(fs, withSeek, r, w, s, o, StartCluster(e), FileSize(e), cs);
  }

  lemma EntryShown(fs: Volume, s: nat, o: nat)
    requires fs.Valid() && fs.winsect == s && 0 < s < |fs.view| && o < 16
    ensures fs.win.Length == 512 && SlotAt(fs.win[..], o) == SlotAt(fs.view[s], o)
  {
    assert fs.win[..] == fs.view[s];
  }

  lemma MayOpen(fs: Volume, cs: seq<dword>)
    requires fs.g.nFatent >= 2 && fs.winsect in fs.meta
    requires forall i, t :: 0 <= i < |cs| && t in fs.meta ==> !fs.g.InCluster(cs[i], t)
    ensures FileMap.Apart(fs.g, fs.winsect, fs.meta, cs)
  {
  }

  // What was written and synchronized is what a reader finds.
  method SyncAndReopen(f: File, time: dword) returns (h: File)
    requires f.Valid() && f.Listed() && f.written
    modifies f`dirty, f`written, f.fs, f.fs.win, f.fs.disk
    ensures fresh(h) && fresh(h.buf) && h.fs == f.fs && h.Valid() && h.canRead && !h.error && h.fptr == 0
    ensures h.chain == f.chain
    ensures h.contents == old(f.contents) && f.fs.fat == old(f.fs.fat) && f.fs.meta == old(f.fs.meta)
    ensures old(f.fs.disk.log) <= f.fs.disk.log && old(f.fs.steps) <= f.fs.steps
  {
    hide *;
    var res := f.FSync(time);
    NamesFile(f);
    h := OpenEntry(f.fs, f.dirSect, f.dirSlot, false, true, false, f.chain);
  }

  lemma NamesFile(f: File)
    requires f.Valid() && f.Listed() && f.Durable() && f.fs.disk.sectors == f.fs.view
    ensures f.fs.Valid() && f.dirSect in f.fs.meta && !f.fs.g.InFats(f.dirSect) && 0 < f.dirSect < |f.fs.view|
    ensures f.dirSlot < 16
    ensures var e := SlotAt(f.fs.view[f.dirSect], f.dirSlot);
            && ChainFrom(f.fs.g, f.fs.fat, StartCluster(e), f.chain)
            && FileSize(e) == f.fsize <= 512 * Capacity(f.fs.g, f.chain)
    ensures f.fs.g.Checked(|f.fs.view|) && Proper(f.fs.g, f.chain)
    ensures f.contents == Data(f.fs.g, f.fs.view, f.chain, f.fsize)
    ensures f.fs.g.nFatent >= 2 && forall i, t :: 0 <= i < |f.chain| && t in f.fs.meta ==>
        !f.fs.g.InCluster(f.chain[i], t)
  {
    hide Data, FatMap.Entry;
  }
}
