/**
 Planning a new volume: unit size, FAT type, sizes and places of the regions, and why
 mounting reads the same layout from the boot sector.
*/
module Formatting {
  import opened Bytes
  import opened Geometry
  import opened DiskIO
  import opened Mount

  const N_ROOTDIR: word := 512
  // Volume sizes, in units of 2000 sectors, from which on the unit sizes in bytes are used.
  const VST: seq<dword> := [1024, 512, 256, 128, 64, 32, 16, 8, 4, 2, 0]
  const CST: seq<dword> := [32768, 16384, 8192, 4096, 2048, 16384, 8192, 4096, 2048, 1024, 512]

  // The first limit at or behind i that vs reaches.
  function UnitIndex(vs: dword, i: nat): (r: nat)
    requires i < |VST|
    ensures i <= r < |VST| && VST[r] <= vs && forall k :: i <= k < r ==> vs < VST[k]
    decreases |VST| - i
  {
    if vs < VST[i] then UnitIndex(vs, i + 1) else i
  }

  // Sectors per cluster for a volume of nVol sectors, from a size in bytes, where 0 chooses one.
  function UnitOf(nVol: dword, au: dword): (u: dword)
    ensures 1 <= u <= 128
  {
    var s := (if au == 0 then CST[UnitIndex(nVol / 2000, 0)] else au) / 512;
    if s == 0 then 1 else if s > 128 then 128 else s
  }

  lemma HalvesOfPower(n: nat)
    requires PowerOfTwo(n) && n >= 8
    ensures PowerOfTwo(n / 8)
  {
    assert PowerOfTwo(n / 2) && PowerOfTwo(n / 2 / 2) && PowerOfTwo(n / 2 / 2 / 2);
    assert n / 2 / 2 / 2 == n / 8;
  }

  lemma SmallPowers()
    ensures PowerOfTwo(1) && PowerOfTwo(2) && PowerOfTwo(4) && PowerOfTwo(8) && PowerOfTwo(16) && PowerOfTwo(32)
    ensures PowerOfTwo(64)
  {
  }

  lemma ChoiceIsPower(i: nat)
    requires i < |CST|
    ensures CST[i] / 512 in [1, 2, 4, 8, 16, 32, 64]
  {
  }

  lemma UnitIsPower(nVol: dword, au: dword)
    requires BitAnd(au, Sub32(au, 1)) == 0
    ensures PowerOfTwo(UnitOf(nVol, au))
  {
    hide BitAnd, PowerOfTwo, UnitIndex;
    PowerOfTwo128();
    SmallPowers();
    if au == 0 {
      ChoiceIsPower(UnitIndex(nVol / 2000, 0));
    } else {
      PowerOfTwoTest(au);
      if au >= 512 {
        HalvesOfPower(au);
        HalvesOfPower(au / 8);
        HalvesOfPower(au / 8 / 8);
        assert au / 8 / 8 / 8 == au / 512;
      }
    }
  }

  // Where everything of a new volume goes.
  datatype Plan = Plan(t: FsType, au: dword, bVol: dword, nVol: dword, nRsv: dword, nFat: dword, nClst: dword) {
    function NDir(): nat {
      if t == Fat32 then 0 else 32
    }

    function BFat(): nat {
      bVol + nRsv
    }

    function BDir(): nat {
      BFat() + nFat
    }

    function BData(): nat {
      BDir() + NDir()
    }

    // Sectors cleared for the root directory.
    function RootSectors(): nat {
      if t == Fat32 then au else 32
    }

    // The end of what is written: the first sector of the FAT is written even if the FAT size wraps around to 0.
    function End(): nat {
      BFat() + (if nFat == 0 then 1 else nFat) + RootSectors()
    }
  }

  // Sectors of a FAT for n clusters, in 32-bit arithmetic.
  function FatSize(t: FsType, n: dword): (s: dword)
    requires t == TypeOf(n)
    ensures 1 <= s || t == Fat32
    ensures s <= 0x80_0000 && (t != Fat32 ==> s <= 257)
  {
    match t
    case Fat12 => ((n * 3 + 1) / 2 + 3 + 511) / 512
    case Fat16 => (n * 2 + 4 + 511) / 512
    case Fat32 => (n * 4 + 8 + 511) % 0x1_0000_0000 / 512
  }

  // The plan before the data area is aligned.
  function Draft(bVol: dword, nVol: dword, au: dword): Plan
    requires au > 0
  {
    var n: dword := nVol / au;
    Plan(TypeOf(n), au, bVol, nVol, if TypeOf(n) == Fat32 then 32 else 1, FatSize(TypeOf(n), n), n)
  }

  lemma {:induction false} BitAndAtMost(x: nat, y: nat)
    ensures BitAnd(x, y) <= y
    decreases x
  {
    if x > 0 && y > 0 {
      BitAndAtMost(x / 2, y / 2);
    }
  }

  // How far sector b is from the next erase block.
  function Shift(b: nat, n: nat): (k: nat)
    requires n > 0
    ensures k < n
  {
    BitAndAtMost(b + n - 1, n - 1);
    b + n - 1 - BitAnd(b + n - 1, n - 1) - b
  }

  lemma ShiftedIs(b: nat, n: nat)
    requires n > 0
    ensures b + Shift(b, n) == b + n - 1 - BitAnd(b + n - 1, n - 1)
  {
  }

  lemma RoundedDown(x: nat, n: nat, r: nat)
    requires n > 0 && r == x % n
    ensures r <= x && (x - r) % n == 0
  {
    var q := x / n;
    assert x == q * n + r;
    DivModUnique(x - r, n, q, 0);
  }

  // For a power of two, the shifted data area starts at an erase block.
  lemma ShiftAligns(b: nat, n: nat)
    requires n > 0 && PowerOfTwo(n)
    ensures (b + Shift(b, n)) % n == 0
  {
    hide *;
    ShiftedIs(b, n);
    MaskIsRemainder(b + n - 1, n);
    RoundedDown(b + n - 1, n, BitAnd(b + n - 1, n - 1));
  }

  // The clusters behind s sectors of a volume, in 32-bit arithmetic.
  function ClustersBehind(nVol: dword, s: nat, au: dword): dword
    requires au > 0
  {
    (nVol - s) % 0x1_0000_0000 / au
  }

  // The plan with the data area aligned to blocks of n sectors.
  function Aligned(bVol: dword, nVol: dword, au: dword, n: nat): (q: Plan)
    requires au > 0 && 1 <= n <= 32768
    ensures q.t == Draft(bVol, nVol, au).t && q.bVol == bVol && q.nVol == nVol && q.au == au
    ensures q.BData() == Draft(bVol, nVol, au).BData() + Shift(Draft(bVol, nVol, au).BData(), n)
    ensures q.nClst == ClustersBehind(nVol, q.BData() - bVol, au)
  {
    var p := Draft(bVol, nVol, au);
    var k := Shift(p.BData(), n);
    var q := if p.t == Fat32 then p.(nRsv := p.nRsv + k) else p.(nFat := p.nFat + k);
    q.(nClst := ClustersBehind(nVol, q.BData() - bVol, au))
  }

  // The erase block the data area is aligned to; 1 if unknown or too large.
  function BlockOf(block: dword): (n: nat)
    ensures 1 <= n <= 32768
  {
    if block == 0 || block > 32768 then 1 else block
  }

  datatype Format = Rejected(res: FResult) | Planned(plan: Plan)

  // What formatting a disk of `size` sectors does, as one partition or without a partition table, with a unit of
  // au bytes, on a medium with erase blocks of `block` sectors (0 if unknown).
  function PlanFormat(size: dword, sfd: byte, au: dword, block: dword): Format {
    if sfd > 1 || BitAnd(au, Sub32(au, 1)) != 0 then Rejected(InvalidParameter)
    else if size < 128 then Rejected(DiskErr)
    else
      var bVol := if sfd != 0 then 0 else 63;
      var nVol := size - bVol;
      var u := UnitOf(nVol, au);
      if nVol < Draft(bVol, nVol, u).BData() + u - bVol then Rejected(MkfsAborted)
      else
        var q := Aligned(bVol, nVol, u, BlockOf(block));
        if (q.t == Fat16 && q.nClst < MIN_FAT16) || (q.t == Fat32 && q.nClst < MIN_FAT32) then Rejected(MkfsAborted)
        else Planned(q)
  }

  method AutoUnit(vs: dword) returns (au: dword)
    ensures au == CST[UnitIndex(vs, 0)]
  {
    var i := 0;
    while vs < VST[i]
      invariant i < |VST| && UnitIndex(vs, 0) == UnitIndex(vs, i)
      decreases |VST| - i
    {
      i := i + 1;
    }
    au := CST[i];
  }

  method ChooseUnit(nVol: dword, unit: dword) returns (au: dword)
    ensures au == UnitOf(nVol, unit)
  {
    hide UnitIndex;
    au := unit;
    if au == 0 { au := AutoUnit(nVol / 2000); }
    au := au / 512;
    if au == 0 { au := 1; }
    if au > 128 { au := 128; }
  }

  // FAT type and size of the regions, before the data area is aligned.
  method SizeRegions(bVol: dword, nVol: dword, au: dword) returns (p: Plan)
    requires au > 0
    ensures p == Draft(bVol, nVol, au)
  {
    var nClst: dword := nVol / au;
    var fmt := Fat12;
    if nClst >= MIN_FAT16 { fmt := Fat16; }
    if nClst >= MIN_FAT32 { fmt := Fat32; }
    var nFat: dword;
    if fmt == Fat32 {
      nFat := (nClst * 4 + 8 + 511) % 0x1_0000_0000 / 512;
    } else {
      nFat := if fmt == Fat12 then (nClst * 3 + 1) / 2 + 3 else nClst * 2 + 4;
      nFat := (nFat + 511) / 512;
    }
    p := Plan(fmt, au, bVol, nVol, if fmt == Fat32 then 32 else 1, nFat, nClst);
  }

  // Move the data area to an erase block and count the clusters again.
  method AlignData(p: Plan, size: nat) returns (q: Plan)
    requires p.au > 0 && p == Draft(p.bVol, p.nVol, p.au) && 1 <= size <= 32768
    ensures q == Aligned(p.bVol, p.nVol, p.au, size)
  {
    hide Shift, Draft, TypeOf;
    SmallDraft(p);
    var n := Shift(p.BData(), size);
    q := p;
    if q.t == Fat32 {
      q := q.(nRsv := q.nRsv + n);
    } else {
      q := q.(nFat := q.nFat + n);
    }
    q := q.(nClst := (q.nVol - q.nRsv - q.nFat - q.NDir()) % 0x1_0000_0000 / q.au);
  }

  lemma SmallDraft(p: Plan)
    requires p.au > 0 && p == Draft(p.bVol, p.nVol, p.au)
    ensures p.nRsv <= 32 && p.nFat <= 0x80_0000
  {
    hide TypeOf, FatSize;
  }

  // Compute the plan.
  method MakePlan(size: dword, sfd: byte, unit: dword, block: dword) returns (f: Format)
    ensures f == PlanFormat(size, sfd, unit, block)
  {
    hide BitAnd, UnitOf, Draft, Aligned;
    if sfd > 1 || BitAnd(unit, Sub32(unit, 1)) != 0 { return Rejected(InvalidParameter); }
    if size < 128 { return Rejected(DiskErr); }
    var bVol: dword := if sfd != 0 then 0 else 63;
    var nVol := size - bVol;
    var au := ChooseUnit(nVol, unit);
    var p := SizeRegions(bVol, nVol, au);
    if nVol < p.BData() + au - bVol { return Rejected(MkfsAborted); }
    DraftOf(bVol, nVol, au);
    p := AlignData(p, BlockOf(block));
    if (p.t == Fat16 && p.nClst < MIN_FAT16) || (p.t == Fat32 && p.nClst < MIN_FAT32) { return Rejected(MkfsAborted); }
    return Planned(p);
  }

  lemma DraftOf(bVol: dword, nVol: dword, au: dword)
    requires au > 0
    ensures var p := Draft(bVol, nVol, au); p.bVol == bVol && p.nVol == nVol && p.au == au
  {
  }

  // The boot sector fields of a plan, as mounting reads them; x and y are what lies where only FAT32 has fields.
  function BpbOf(p: Plan, x: dword, y: word): Bpb
    requires p.nRsv < 0x1_0000 && p.au < 0x100
  {
    Bpb(512, p.nFat, 1, p.au, if p.t == Fat32 then 0 else N_ROOTDIR, p.nVol, p.nRsv,
        if p.t == Fat32 then 2 else x, if p.t == Fat32 then 1 else y)
  }

  // The layout of the new volume.
  function LayoutFor(p: Plan): Layout {
    Layout(p.t, p.au, 1, if p.t == Fat32 then 0 else N_ROOTDIR, p.nClst + 2, p.nFat, p.BFat(),
           if p.t == Fat32 then 2 else p.BDir(), p.BData(), if p.t == Fat32 then p.bVol + 1 else 0)
  }

  // p is the plan for a disk of `size` sectors, and everything written lies on the disk.
  ghost predicate Fits(p: Plan, size: dword, sfd: byte, au: dword, block: dword) {
    PlanFormat(size, sfd, au, block) == Planned(p) && p.End() <= size
  }

  // Such a plan is an aligned draft.
  lemma PlanIsAligned(p: Plan, size: dword, sfd: byte, au: dword, block: dword) returns (n: nat)
    requires PlanFormat(size, sfd, au, block) == Planned(p)
    ensures p.bVol == (if sfd != 0 then 0 else 63) && p.bVol + p.nVol == size >= 128 && p.au == UnitOf(p.nVol, au)
    ensures BitAnd(au, Sub32(au, 1)) == 0
    ensures 1 <= n <= 32768 && p == Aligned(p.bVol, p.nVol, p.au, n)
    ensures n == BlockOf(block)
    ensures p.t == Fat16 ==> MIN_FAT16 <= p.nClst
    ensures p.t == Fat32 ==> MIN_FAT32 <= p.nClst
  {
    hide BitAnd, FatSize, Shift, Aligned, UnitOf, TypeOf;
    n := BlockOf(block);
  }

  // What aligning does to a draft.
  lemma AlignedFacts(bVol: dword, nVol: dword, au: dword, n: nat)
    requires au > 0 && 1 <= n <= 32768
    ensures var p, q := Draft(bVol, nVol, au), Aligned(bVol, nVol, au, n);
            && q.t == p.t == TypeOf(nVol / au) && q.bVol == p.bVol == bVol && q.nVol == p.nVol == nVol
            && p.nRsv <= q.nRsv <= p.nRsv + 32767 && p.nFat <= q.nFat <= p.nFat + 32767
            && p.BData() <= q.BData() <= p.BData() + 32767 && p.nFat == FatSize(p.t, nVol / au)
            && p.nRsv == if p.t == Fat32 then 32 else 1
  {
    hide FatSize, Shift;
  }

  lemma FitsMeans(p: Plan, size: dword, sfd: byte, au: dword, block: dword)
    requires Fits(p, size, sfd, au, block)
    ensures PlanFormat(size, sfd, au, block) == Planned(p) && p.End() <= size
  {
  }

  // The facts about a plan that do not depend on how it was found.
  lemma PlanFacts(p: Plan, size: dword, sfd: byte, au: dword, block: dword)
    requires Fits(p, size, sfd, au, block)
    ensures 1 <= p.au <= 128 && PowerOfTwo(p.au) && p.bVol + p.nVol == size && (p.bVol == 0 || p.bVol == 63)
    ensures 65 <= p.nVol
    ensures p.BData() <= size && p.nClst == (size - p.BData()) / p.au
    ensures 1 <= p.nRsv < 0x1_0000 && p.nRsv + p.NDir() >= 32 && (p.t == Fat32 ==> p.nRsv >= 32)
    ensures p.t != Fat32 ==> 1 <= p.nFat < 0x1_0000
    ensures var n := p.nVol / p.au;
            p.t == TypeOf(n) && FatSize(p.t, n) <= p.nFat && p.BData() - p.bVol <= FatSize(p.t, n) + 32900
    ensures p.t == Fat16 ==> MIN_FAT16 <= p.nClst
    ensures p.t == Fat32 ==> MIN_FAT32 <= p.nClst
  {
    hide *;
    FitsMeans(p, size, sfd, au, block);
    var n := PlanIsAligned(p, size, sfd, au, block);
    UnitIsPower(p.nVol, au);
    AlignedFacts(p.bVol, p.nVol, p.au, n);
    PlanBounds(p, Draft(p.bVol, p.nVol, p.au), size);
    DataInside(p, size);
    ClustersCounted(p.nVol, p.bVol, p.BData(), p.au);
  }

  lemma PlanBounds(q: Plan, p: Plan, size: dword)
    requires q.t == p.t && q.bVol == p.bVol && q.nVol == p.nVol && q.bVol + q.nVol == size
    requires p.nRsv <= q.nRsv <= p.nRsv + 32767 && p.nFat <= q.nFat <= p.nFat + 32767
    requires p.BData() <= q.BData() <= p.BData() + 32767 && 1 <= q.au && p == Draft(q.bVol, q.nVol, q.au)
    requires p.nRsv == (if p.t == Fat32 then 32 else 1)
    ensures 1 <= q.nRsv < 0x1_0000 && q.nRsv + q.NDir() >= 32 && (q.t == Fat32 ==> q.nRsv >= 32)
    ensures q.t == TypeOf(q.nVol / q.au) && p.nFat == FatSize(q.t, q.nVol / q.au)
    ensures (q.t != Fat32 ==> 1 <= q.nFat < 0x1_0000) && 0 <= q.BData() - q.bVol <= p.nFat + 32900
  {
    hide TypeOf, FatSize;
  }

  lemma DataInside(p: Plan, size: dword)
    requires p.End() <= size
    ensures p.BData() <= size
  {
  }

  // The sizes of a plan, whether or not its regions lie on the disk.
  lemma PlanSizes(p: Plan, size: dword, sfd: byte, au: dword, block: dword)
    requires PlanFormat(size, sfd, au, block) == Planned(p)
    ensures 1 <= p.au <= 128 && p.bVol <= 63 && size >= 128 && p.bVol == if sfd != 0 then 0 else 63
    ensures 1 <= p.nRsv < 0x1_0000 && (p.t == Fat32 ==> p.nRsv >= 32) && (p.t != Fat32 ==> 1 <= p.nFat < 0x1_0000)
    ensures p.t == Fat32 ==> MIN_FAT32 <= p.nClst
  {
    hide *;
    var n := PlanIsAligned(p, size, sfd, au, block);
    AlignedFacts(p.bVol, p.nVol, p.au, n);
    PlanBounds(p, Draft(p.bVol, p.nVol, p.au), size);
  }

  lemma ClustersCounted(nVol: dword, bVol: dword, b: nat, au: dword)
    requires au > 0 && bVol <= b <= bVol + nVol
    ensures ClustersBehind(nVol, b - bVol, au) == (bVol + nVol - b) / au
  {
  }

  lemma DivAtMost(a: nat, n: nat, k: nat)
    requires a < k * n + n
    ensures a / n <= k
  {
    var q := a / n;
    assert a == q * n + a % n;
    if q > k {
      MulGap(q, k, n);
    }
  }

  lemma DivZero(a: nat, n: nat)
    requires n > 0
    ensures a < n <==> a / n == 0
  {
    assert a == a / n * n + a % n;
  }

  lemma DivMonotone(a: nat, b: nat, n: nat)
    requires n > 0
    ensures a <= b ==> a / n <= b / n
    ensures a < n <==> a / n == 0
  {
    var r := b / n;
    assert b == r * n + b % n;
    if a <= b {
      DivAtMost(a, n, r);
    }
    DivZero(a, n);
  }

  // The boot sector of a plan describes just its regions.
  lemma PlanRegions(p: Plan, size: dword, sfd: byte, au: dword, block: dword, x: dword, y: word)
    requires Fits(p, size, sfd, au, block)
    ensures p.nRsv < 0x1_0000 && 0 < p.au < 0x100
    ensures var b := BpbOf(p, x, y);
            b.SystemSectors() == p.BData() - p.bVol <= p.nVol && b.Clusters() == p.nClst
  {
    hide *;
    PlanFacts(p, size, sfd, au, block);
    SystemIs(p, size, x, y);
    ClustersAre(BpbOf(p, x, y), p, size);
  }

  lemma SystemIs(p: Plan, size: dword, x: dword, y: word)
    requires p.nRsv < 0x1_0000 && 0 < p.au < 0x100 && p.bVol + p.nVol == size && p.BData() <= size
    ensures var b := BpbOf(p, x, y);
            b.SystemSectors() == p.BData() - p.bVol <= p.nVol && b.csize == p.au && b.totalSectors == p.nVol
  {
  }

  lemma ClustersAre(b: Bpb, p: Plan, size: dword)
    requires b.SystemSectors() == p.BData() - p.bVol <= p.nVol && b.csize == p.au > 0 && b.totalSectors == p.nVol
    requires p.bVol + p.nVol == size && p.BData() <= size && p.nClst == (size - p.BData()) / p.au
    ensures b.Clusters() == p.nClst
  {
    hide Bpb.SystemSectors, Plan.BData;
  }

  // The FAT type found again is the planned one.
  lemma PlanType(p: Plan, size: dword, sfd: byte, au: dword, block: dword)
    requires Fits(p, size, sfd, au, block)
    ensures TypeOf(p.nClst) == p.t
    ensures p.au > 0 && p.nClst <= p.nVol / p.au && (p.nClst > 0 <==> p.BData() + p.au <= size)
  {
    hide *;
    PlanFacts(p, size, sfd, au, block);
    ShorterVolume(p, size);
    DivMonotone(size - p.BData(), p.nVol, p.au);
    TypeAgain(p.t, p.nVol / p.au, p.nClst);
  }

  lemma ShorterVolume(p: Plan, size: dword)
    requires p.bVol + p.nVol == size
    ensures size - p.BData() <= p.nVol
  {
  }

  lemma TypeAgain(t: FsType, n: nat, m: nat)
    requires t == TypeOf(n) && m <= n && (t == Fat16 ==> MIN_FAT16 <= m) && (t == Fat32 ==> MIN_FAT32 <= m)
    ensures TypeOf(m) == t
  {
  }

  // The FAT of a plan is large enough for all clusters, unless there are more than FAT32 can number.
  lemma PlanFat(p: Plan, size: dword, sfd: byte, au: dword, block: dword)
    requires Fits(p, size, sfd, au, block) && p.nClst + 2 <= MAX_FATENT
    ensures p.nFat >= Add32(RequiredBytes(p.t, p.nClst + 2), 511) / 512
  {
    hide *;
    PlanFacts(p, size, sfd, au, block);
    PlanType(p, size, sfd, au, block);
    var n: dword := p.nVol / p.au;
    NotTooMany(p, size, n);
    FatSizeCovers(p.t, n, p.nClst);
  }

  lemma NotTooMany(p: Plan, size: dword, n: dword)
    requires 1 <= p.au <= 128 && p.bVol + p.nVol == size && p.BData() <= size && p.nClst == (size - p.BData()) / p.au
    requires n == p.nVol / p.au && p.t == TypeOf(n) && p.BData() - p.bVol <= FatSize(p.t, n) + 32900
    requires p.nClst + 2 <= MAX_FATENT
    ensures n <= 0x2000_0000
  {
    hide TypeOf, FatSize;
    var sys := p.BData() - p.bVol;
    QuotientOfParts(p.nVol, sys, p.au);
  }

  lemma QuotientOfParts(a: nat, s: nat, n: nat)
    requires n > 0 && s <= a
    ensures a / n <= (a - s) / n + s + 1
  {
    var r := (a - s) / n;
    assert a - s == r * n + (a - s) % n;
    assert (r + s) * n == r * n + s * n;
    MulAtLeast(s, n);
    DivAtMost(a, n, r + s);
  }

  lemma FatSizeCovers(t: FsType, n: dword, m: dword)
    requires t == TypeOf(n) && m <= n <= 0x2000_0000
    ensures FatSize(t, n) >= Add32(RequiredBytes(t, m + 2), 511) / 512
  {
    hide FatSize, RequiredBytes, Add32;
    match t
    case Fat12 => Covers12(n, m);
    case Fat16 => Covers16(n, m);
    case Fat32 => Covers32(n, m);
  }

  lemma Quotients(a: nat, b: nat)
    requires a <= b
    ensures a / 512 <= b / 512
  {
  }

  lemma Covers12(n: dword, m: dword)
    requires m <= n < MIN_FAT16 && Fat12 == TypeOf(n)
    ensures FatSize(Fat12, n) >= Add32(RequiredBytes(Fat12, m + 2), 511) / 512
  {
    hide TypeOf, RequiredBytes, Add32;
    NoWrap(Fat12, m + 2);
    Halves(m, n);
    Quotients(m / 2 * 3 + m % 2 * 2 + 3 + 511, (n * 3 + 1) / 2 + 3 + 511);
  }

  lemma Halves(m: nat, n: nat)
    requires m <= n
    ensures (m + 2) * 3 / 2 + m % 2 == m / 2 * 3 + m % 2 * 2 + 3 && m / 2 * 3 + m % 2 * 2 <= (n * 3 + 1) / 2
  {
    assert m == m / 2 * 2 + m % 2;
  }

  lemma Covers16(n: dword, m: dword)
    requires m <= n < MIN_FAT32 && Fat16 == TypeOf(n)
    ensures FatSize(Fat16, n) >= Add32(RequiredBytes(Fat16, m + 2), 511) / 512
  {
    hide RequiredBytes, Add32;
    NoWrap(Fat16, m + 2);
    Quotients(m * 2 + 4 + 511, n * 2 + 4 + 511);
  }

  lemma Covers32(n: dword, m: dword)
    requires m <= n <= 0x2000_0000 && Fat32 == TypeOf(n)
    ensures FatSize(Fat32, n) >= Add32(RequiredBytes(Fat32, m + 2), 511) / 512
  {
    hide RequiredBytes, Add32, FatSize;
    NoWrap(Fat32, m + 2);
    FatSize32(n);
    Quotients(m * 4 + 8 + 511, n * 4 + 8 + 511);
  }

  lemma FatSize32(n: dword)
    requires n <= 0x2000_0000 && Fat32 == TypeOf(n)
    ensures FatSize(Fat32, n) == (n * 4 + 8 + 511) / 512
  {
    hide TypeOf;
  }

  lemma EmptyIsRefused(p: Plan, b: Bpb)
    requires b.csize > 0 && b.totalSectors >= b.SystemSectors() ==> b.Clusters() == 0
    ensures !Accepts(b)
  {
    hide Bpb.Clusters, Bpb.SystemSectors, BitAnd;
  }

  // The layout read from the boot sector.
  lemma LayoutIsFor(p: Plan, b: Bpb, x: dword, y: word)
    requires p.nRsv < 0x1_0000 && 0 < p.au < 0x100 && b == BpbOf(p, x, y) && Accepts(b)
    requires b.SystemSectors() == p.BData() - p.bVol <= p.nVol && b.Clusters() == p.nClst && TypeOf(p.nClst) == p.t
    requires p.nClst + 2 <= MAX_FATENT && p.bVol <= 63 && p.BData() < 0x1_0000_0000
    ensures LayoutOf(b, p.bVol) == LayoutFor(p)
  {
    hide Accepts, Bpb.Clusters, Bpb.SystemSectors, TypeOf, Add32;
    SmallSum(p.bVol, p.nRsv);
    SmallSum(p.bVol, 1);
    SmallSum(p.bVol, p.BData() - p.bVol);
    SmallSum(p.nClst, 2);
    SmallSum(p.BFat(), p.nFat);
  }

  lemma ManyIsUnsound(p: Plan, b: Bpb, x: dword, y: word)
    requires p.nRsv < 0x1_0000 && 0 < p.au < 0x100 && b == BpbOf(p, x, y)
    requires b.SystemSectors() <= p.nVol && b.Clusters() == p.nClst && p.BData() <= p.bVol + p.nVol < 0x1_0000_0000
    requires p.nRsv >= 1
    requires p.nClst == (p.bVol + p.nVol - p.BData()) / p.au && p.nRsv + p.NDir() >= 32
    ensures Accepts(b) && p.nClst + 2 > MAX_FATENT ==> !LayoutOf(b, p.bVol).Sound(p.bVol + p.nVol)
  {
    hide Bpb.Clusters, Bpb.SystemSectors, TypeOf, RequiredBytes, BitAnd, Accepts, SizesFit, Layout.Trusted;
    QuotientAtMost(p.bVol + p.nVol - p.BData(), p.au);
    if Accepts(b) && p.nClst + 2 > MAX_FATENT {
      BeyondIsUntrusted(LayoutOf(b, p.bVol), p.bVol + p.nVol);
    }
  }

  lemma BeyondIsUntrusted(g: Layout, limit: nat)
    requires g.nFatent > MAX_FATENT
    ensures !g.Sound(limit)
  {
    hide PowerOfTwo;
  }

  lemma FewIsAccepted(p: Plan, b: Bpb, x: dword, y: word, size: dword)
    requires p.nRsv < 0x1_0000 && 0 < p.au < 0x100 && b == BpbOf(p, x, y)
    requires b.SystemSectors() <= p.nVol && b.Clusters() == p.nClst && TypeOf(p.nClst) == p.t && 1 <= p.nRsv
    requires 0 < p.nClst && p.nClst + 2 <= MAX_FATENT && BitAnd(p.au, p.au - 1) == 0
    requires p.nFat >= Add32(RequiredBytes(p.t, p.nClst + 2), 511) / 512
    ensures Accepts(b)
  {
    hide Bpb.Clusters, Bpb.SystemSectors, TypeOf, RequiredBytes, BitAnd;
  }

  lemma SoundLayout(p: Plan, b: Bpb, x: dword, y: word, size: dword)
    requires p.nRsv < 0x1_0000 && 0 < p.au < 0x100 && b == BpbOf(p, x, y) && Accepts(b)
    requires LayoutOf(b, p.bVol) == LayoutFor(p)
    requires b.SystemSectors() == p.BData() - p.bVol && b.Clusters() == p.nClst && p.nClst + 2 <= MAX_FATENT
    requires p.bVol + p.nVol == size && (p.t == Fat32 ==> p.nRsv >= 32 && MIN_FAT32 <= p.nClst)
    ensures LayoutOf(b, p.bVol).Sound(size)
  {
    hide Bpb.Clusters, Bpb.SystemSectors, TypeOf, RequiredBytes, BitAnd, Accepts, SizesFit, FatFits;
    SizesAreFit(p, b, x, y);
    SmallFatFits(b);
    FittingSizesAreChecked(b, p.bVol, size);
  }

  lemma SizesAreFit(p: Plan, b: Bpb, x: dword, y: word)
    requires p.nRsv < 0x1_0000 && 0 < p.au < 0x100 && b == BpbOf(p, x, y) && p.BData() - p.bVol < 0x1_0000_0000
    ensures SizesFit(b)
  {
  }

  // The volume described by the new boot sector is accepted, with a sound layout, exactly if behind the aligned start
  // of the data area there is room for a cluster and the clusters can be numbered; its layout then is the planned one.
  lemma PlanAccepted(p: Plan, size: dword, sfd: byte, au: dword, block: dword, x: dword, y: word)
    requires Fits(p, size, sfd, au, block)
    ensures p.nRsv < 0x1_0000 && p.au < 0x100
    ensures var b := BpbOf(p, x, y);
            && (p.BData() + p.au > size ==> !Accepts(b))
            && (Accepts(b) && LayoutOf(b, p.bVol).Sound(size) <==>
                 p.BData() + p.au <= size && p.nClst + 2 <= MAX_FATENT)
            && (Accepts(b) && p.nClst + 2 <= MAX_FATENT ==> LayoutOf(b, p.bVol) == LayoutFor(p))
  {
    hide *;
    PlanRegions(p, size, sfd, au, block, x, y);
    var b := BpbOf(p, x, y);
    PlanType(p, size, sfd, au, block);
    PlanFacts(p, size, sfd, au, block);
    PowerOfTwoTest(p.au);
    if p.nClst == 0 {
      EmptyIsRefused(p, b);
    } else {
      ManyIsUnsound(p, b, x, y);
      if p.nClst + 2 <= MAX_FATENT {
        PlanFat(p, size, sfd, au, block);
        FewIsAccepted(p, b, x, y, size);
        LayoutIsFor(p, b, x, y);
        SoundLayout(p, b, x, y, size);
      }
    }
  }

  // With the automatic unit size there are never too many clusters to number.
  lemma AutomaticFits(p: Plan, size: dword, sfd: byte, block: dword)
    requires Fits(p, size, sfd, 0, block)
    ensures p.nClst + 2 <= MAX_FATENT
  {
    hide *;
    FitsMeans(p, size, sfd, 0, block);
    var n := PlanIsAligned(p, size, sfd, 0, block);
    PlanType(p, size, sfd, 0, block);
    AutomaticUnit(p.nVol);
  }

  lemma AutomaticUnit(nVol: dword)
    ensures nVol / UnitOf(nVol, 0) + 2 <= MAX_FATENT
  {
    hide UnitIndex;
    if UnitIndex(nVol / 2000, 0) == 0 {
      assert UnitOf(nVol, 0) == 64;
    } else {
      assert nVol / 2000 < VST[0];
      QuotientAtMost(nVol, UnitOf(nVol, 0));
    }
  }

  // Sectors in front of the data area of a FAT32 volume with n clusters that starts at sector bVol.
  function SystemOf32(bVol: dword, n: dword, block: dword): nat
    requires n >= MIN_FAT32
  {
    32 + FatSize(Fat32, n) + Shift(bVol + 32 + FatSize(Fat32, n), BlockOf(block))
  }

  // The clusters of a volume with the automatic unit size.
  lemma AutomaticClusters(nVol: dword)
    requires nVol >= 65
    ensures var u := UnitOf(nVol, 0);
            && (nVol < 128_000 ==> nVol / u < MIN_FAT16 && u <= 32 && (u > 1 ==> 4_000 <= nVol))
            && (128_000 <= nVol < 4_193_664 ==> 32_000 <= nVol / u < MIN_FAT32 && 4 <= u && 32_000 * u <= nVol)
            && (4_193_664 <= nVol ==> nVol / u >= MIN_FAT32 && u == 64)
  {
    hide UnitIndex;
    var i := UnitIndex(nVol / 2000, 0);
    assert i > 0 ==> nVol / 2000 < VST[i - 1];
  }

  // A plan for FAT12 or FAT16 needs little room in front of the data area.
  lemma SmallSystem(bVol: dword, nVol: dword, u: dword)
    requires 1 <= u && nVol / u < MIN_FAT32
    ensures var p := Draft(bVol, nVol, u);
            && p.t == TypeOf(nVol / u) != Fat32 && p.BData() - bVol <= 290
            && (p.t == Fat12 ==> p.BData() - bVol <= 46)
  {
  }

  lemma EnoughBehind(nVol: dword, s: nat, u: dword, m: nat)
    requires u > 0 && s <= nVol
    ensures ClustersBehind(nVol, s, u) < m <==> nVol - s < m * u
  {
    var c := (nVol - s) / u;
    assert nVol - s == c * u + (nVol - s) % u;
    if c < m {
      MulGap(m, c, u);
    } else {
      MulMonotone(m, c, u);
    }
  }

  lemma MulMonotone(a: nat, b: nat, n: nat)
    requires a <= b
    ensures a * n <= b * n
  {
  }

  // What the guards of the plan let through.
  lemma PlannedIf(size: dword, sfd: byte, au: dword, block: dword, nVol: dword, u: dword)
    requires sfd <= 1 && BitAnd(au, Sub32(au, 1)) == 0 && size >= 128 && nVol == size - (if sfd != 0 then 0 else 63)
    requires u == UnitOf(nVol, au)
    ensures var bVol: dword := if sfd != 0 then 0 else 63;
            var p, q, f := Draft(bVol, nVol, u), Aligned(bVol, nVol, u, BlockOf(block)),
              PlanFormat(size, sfd, au, block);
            && (f.Planned? ==> f.plan == q) && (!f.Planned? ==> f == Rejected(MkfsAborted))
            && (f.Planned? <==>
                 && p.BData() - bVol + u <= nVol && (q.t == Fat16 ==> q.nClst >= MIN_FAT16)
                 && (q.t == Fat32 ==> q.nClst >= MIN_FAT32))
  {
    hide BitAnd, UnitOf, Draft, Aligned;
  }

  // With the automatic unit size, which volumes are planned, and with which type: FAT12 below 128000 sectors, FAT16
  // from there on, and FAT32 from 4193664 sectors on if behind the aligned data area enough clusters are left.
  lemma AutomaticPlan(size: dword, sfd: byte, block: dword)
    ensures var f, nVol := PlanFormat(size, sfd, 0, block), size - (if sfd != 0 then 0 else 63);
            && (sfd > 1 ==> f == Rejected(InvalidParameter)) && (sfd <= 1 && size < 128 ==> f == Rejected(DiskErr))
            && (sfd <= 1 && size >= 128 ==>
                 && (nVol < 128_000 ==> f.Planned? && f.plan.t == Fat12)
                 && (128_000 <= nVol < 4_193_664 ==> f.Planned? && f.plan.t == Fat16)
                 && (4_193_664 <= nVol ==>
                      && (f.Planned? <==>
                           SystemOf32(size - nVol, nVol / 64, block) + MIN_FAT32 * 64 <= nVol)
                      && (if f.Planned? then f.plan.t == Fat32 else f == Rejected(MkfsAborted))))
  {
    hide *;
    UnitAllowed(0);
    if sfd > 1 || size < 128 {
      BadRequest(size, sfd, 0, block);
    } else {
      var bVol: dword := if sfd != 0 then 0 else 63;
      var nVol: dword := size - bVol;
      var u, n := UnitOf(nVol, 0), BlockOf(block);
      PlannedIf(size, sfd, 0, block, nVol, u);
      AutomaticClusters(nVol);
      AlignedFacts(bVol, nVol, u, n);
      if nVol < 4_193_664 {
        RoomForSmall(bVol, nVol, u, n);
      } else {
        RoomForLarge(bVol, nVol, u, block);
      }
    }
  }

  lemma UnitAllowed(au: dword)
    ensures BitAnd(au, Sub32(au, 1)) == 0 <==> au == 0 || PowerOfTwo(au)
  {
    hide PowerOfTwo;
    if au > 0 {
      PowerOfTwoTest(au);
    }
  }

  lemma BadRequest(size: dword, sfd: byte, au: dword, block: dword)
    requires BitAnd(au, Sub32(au, 1)) == 0
    ensures sfd > 1 ==> PlanFormat(size, sfd, au, block) == Rejected(InvalidParameter)
    ensures sfd <= 1 && size < 128 ==> PlanFormat(size, sfd, au, block) == Rejected(DiskErr)
  {
    hide BitAnd, UnitOf, Draft, Aligned;
  }

  lemma RoomForSmall(bVol: dword, nVol: dword, u: dword, n: nat)
    requires 65 <= nVol && 1 <= u <= 128 && 1 <= n <= 32768
    requires nVol < 128_000 ==> nVol / u < MIN_FAT16 && u <= 32 && (u > 1 ==> 4_000 <= nVol)
    requires 128_000 <= nVol ==> 32_000 <= nVol / u < MIN_FAT32 && 4 <= u && 32_000 * u <= nVol
    ensures var p, q := Draft(bVol, nVol, u), Aligned(bVol, nVol, u, n);
            && p.BData() - bVol + u <= nVol && q.t == (if nVol < 128_000 then Fat12 else Fat16)
            && (q.t == Fat16 ==> q.nClst >= MIN_FAT16)
  {
    hide Draft, Aligned, ClustersBehind, Shift, FatSize;
    SmallSystem(bVol, nVol, u);
    AlignedFacts(bVol, nVol, u, n);
    if nVol >= 128_000 {
      EnoughBehind(nVol, Aligned(bVol, nVol, u, n).BData() - bVol, u, MIN_FAT16);
    }
  }

  lemma RoomForLarge(bVol: dword, nVol: dword, u: dword, block: dword)
    requires 4_193_664 <= nVol && u == 64 && nVol / u >= MIN_FAT32 && bVol <= 63
    ensures var p, q := Draft(bVol, nVol, u), Aligned(bVol, nVol, u, BlockOf(block));
            && p.BData() - bVol + u <= nVol && q.t == Fat32
            && (q.nClst >= MIN_FAT32 <==> SystemOf32(bVol, nVol / 64, block) + MIN_FAT32 * 64 <= nVol)
  {
    hide Shift, ClustersBehind, BlockOf;
    var n := BlockOf(block);
    AlignedFacts(bVol, nVol, u, n);
    SystemIsSmall(nVol / 64);
    EnoughBehind(nVol, SystemOf32(bVol, nVol / 64, block), u, MIN_FAT32);
  }

  lemma SystemIsSmall(n: dword)
    requires MIN_FAT32 <= n <= 0x400_0000
    ensures FatSize(Fat32, n) == (n * 4 + 519) / 512 <= 32 * n
  {
  }

  // For any unit size, a volume of 100000 clusters or more gets FAT32.
  lemma LargeIsFat32(size: dword, sfd: byte, au: dword, block: dword)
    requires sfd <= 1 && size >= 128 && (au == 0 || PowerOfTwo(au))
    requires var nVol := size - (if sfd != 0 then 0 else 63); nVol / UnitOf(nVol, au) >= 100_000
    ensures var f := PlanFormat(size, sfd, au, block); f.Planned? && f.plan.t == Fat32
  {
    hide *;
    UnitAllowed(au);
    var bVol: dword := if sfd != 0 then 0 else 63;
    var nVol: dword := size - bVol;
    var u := UnitOf(nVol, au);
    PlannedIf(size, sfd, au, block, nVol, u);
    AlignedFacts(bVol, nVol, u, BlockOf(block));
    ManyClusters(bVol, nVol, u, BlockOf(block));
  }

  lemma ManyClusters(bVol: dword, nVol: dword, u: dword, n: nat)
    requires 1 <= u <= 128 && nVol / u >= 100_000 && 1 <= n <= 32768
    ensures var p, q := Draft(bVol, nVol, u), Aligned(bVol, nVol, u, n);
            p.BData() - bVol + u <= nVol && q.t == Fat32 && q.nClst >= MIN_FAT32
  {
    hide Draft, Aligned, ClustersBehind, Shift, FatSize;
    AlignedFacts(bVol, nVol, u, n);
    FatIsSmall(nVol / u);
    var p, q := Draft(bVol, nVol, u), Aligned(bVol, nVol, u, n);
    assert q.BData() - bVol <= nVol / u / 128 + 32_801;
    ManyLeft(nVol, nVol / u, u, q.BData() - bVol);
    EnoughBehind(nVol, q.BData() - bVol, u, MIN_FAT32);
    FirstRoom(p, q, nVol, u);
  }

  lemma FirstRoom(p: Plan, q: Plan, nVol: dword, u: dword)
    requires u >= 1 && p.bVol == q.bVol && p.BData() <= q.BData() && q.BData() - q.bVol + MIN_FAT32 * u <= nVol
    ensures p.BData() - q.bVol + u <= nVol
  {
    hide Plan.BData;
  }

  // Few sectors in front leave many clusters behind.
  lemma ManyLeft(v: nat, c: nat, u: nat, s: nat)
    requires u >= 1 && c == v / u && c >= 100_000 && s <= c / 128 + 32_801
    ensures s + MIN_FAT32 * u <= v
  {
    MulAtLeast(c - MIN_FAT32, u);
    assert (c - MIN_FAT32) * u == c * u - MIN_FAT32 * u;
  }

  lemma FatIsSmall(n: dword)
    requires n >= MIN_FAT32
    ensures FatSize(Fat32, n) <= n / 128 + 2
  {
  }
}
