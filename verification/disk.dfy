/**
 Result codes and the block device below the file system.
*/
module DiskIO {
  import opened Bytes

  datatype FResult =
    | Ok
    | DiskErr
    | IntErr
    | NoFile
    | NoPath
    | InvalidName
    | Denied
    | Exist
    | NoFilesystem
    | NotEnoughCore
    | InvalidParameter
    | MkfsAborted
    | InvalidObject

  // v with n sectors from s on replaced by consecutive 512-byte pieces of data.
  function Overwrite(v: seq<Sector>, s: nat, data: seq<byte>, n: nat): (w: seq<Sector>)
    requires s + n <= |v| && 512 * n <= |data|
    ensures |w| == |v|
    ensures forall t :: 0 <= t < |v| ==> w[t] == if s <= t < s + n then data[512 * (t - s)..512 * (t - s) + 512]
        else v[t]
  {
    seq(|v|, (t: nat) requires t < |v| => if s <= t < s + n then data[512 * (t - s)..512 * (t - s) + 512] else v[t])
  }

  // The bytes of n consecutive sectors from s on.
  function Gather(v: seq<Sector>, s: nat, n: nat): (d: seq<byte>)
    requires s + n <= |v|
    ensures |d| == 512 * n
    ensures forall q :: 0 <= q < 512 * n ==> d[q] == v[s + q / 512][q % 512]
  {
    seq(512 * n, (q: nat) requires q < 512 * n => v[s + q / 512][q % 512])
  }

  /** A block device whose transfers succeed exactly when they address existing sectors. */
  class Disk {
    var sectors: seq<Sector>
    ghost var log: seq<seq<Sector>>  // the device after each write call

    constructor (s: seq<Sector>)
      ensures sectors == s && log == [s]
    {
      sectors := s;
      log := [s];
    }

    method Read(buf: array<byte>, s: nat) returns (ok: bool)
      requires buf.Length == 512
      modifies buf
      ensures ok == (s < |sectors|)
      ensures buf[..] == if ok then sectors[s] else old(buf[..])
    {
      ok := s < |sectors|;
      if ok {
        var x := sectors[s];
        forall i | 0 <= i < 512 {
          buf[i] := x[i];
        }
        assert buf[..] == x;
      }
    }

    method Write(buf: array<byte>, s: nat) returns (ok: bool)
      requires buf.Length == 512
      modifies this
      ensures ok == (s < |sectors|) && |sectors| == |old(sectors)|
      ensures sectors == if ok then old(sectors)[s := buf[..]] else old(sectors)
      ensures log == if ok then old(log) + [sectors] else old(log)
    {
      ok := s < |sectors|;
      if ok {
        sectors := sectors[s := buf[..]];
        log := log + [sectors];
      }
    }

    // Read n consecutive sectors from s on.
    method ReadRun(s: nat, n: nat) returns (ok: bool, data: seq<byte>)
      ensures ok == (s + n <= |sectors|)
      ensures data == if ok then Gather(sectors, s, n) else []
    {
      ok := s + n <= |sectors|;
      data := if ok then Gather(sectors, s, n) else [];
    }

    // Write n consecutive sectors from s on.
    method WriteRun(data: seq<byte>, s: nat, n: nat) returns (ok: bool)
      requires 512 * n <= |data|
      modifies this
      ensures ok == (s + n <= |sectors|) && |sectors| == |old(sectors)|
      ensures sectors == if ok then Overwrite(old(sectors), s, data, n) else old(sectors)
      ensures log == if ok then old(log) + [sectors] else old(log)
    {
      ok := s + n <= |sectors|;
      if ok {
        sectors := Overwrite(sectors, s, data, n);
        log := log + [sectors];
      }
    }
  }
}
