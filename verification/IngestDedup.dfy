/** internal/ingest/dedup.go: per-device bounded dedup, with the per-device
    records as heap objects updated in place. */
module IngestDedup {
  import opened Bytes
  import opened Windows

  type uint64 = x: int | 0 <= x < 0x1_0000_0000_0000_0000

  /** A telemetry Reading; the value is its 64-bit pattern. */
  datatype Reading = Reading(deviceId: seq<byte>, sequence: uint64, timestampMs: int, valueBits: uint64)

  const MAX_SEQUENCES_PER_DEVICE := 4096

  function ByDevice(): Keying<Reading, seq<byte>, uint64> {
    Keying((r: Reading) => r.deviceId, (r: Reading) => r.sequence)
  }

  class DeviceSeen {
    var members: set<uint64>
    var order: seq<uint64>

    constructor ()
      ensures View() == EmptyWindow()
    {
      members, order := {}, [];
    }

    ghost function View(): Window<uint64>
      reads this
    {
      Window(members, order)
    }

    /** The tail of Admit, on the one record it found or made. */
    method Record(sequence: uint64, cap: nat) returns (isNew: bool)
      modifies this
      ensures (View(), isNew) == AdmitKey(old(View()), sequence, cap)
    {
      if sequence in members {
        return false;
      }
      members := members + {sequence};
      order := order + [sequence];
      if |order| > cap {
        var oldest := order[0];
        order := order[1..];
        members := members - {oldest};
      }
      isNew := true;
    }
  }

  class Dedup {
    const cap: nat
    var seen: map<seq<byte>, DeviceSeen>

    /** Distinct devices own distinct records. */
    ghost predicate Valid()
      reads this
    {
      forall d, e :: d in seen && e in seen && d != e ==> seen[d] != seen[e]
    }

    ghost function View(): map<seq<byte>, Window<uint64>>
      reads this, seen.Values
    {
      map d | d in seen :: seen[d].View()
    }

    constructor (cap: nat)
      ensures Valid() && View() == map[] && this.cap == cap
    {
      this.cap := cap;
      seen := map[];
    }

    /** NewDedup, with the source's bound; the theorems hold of any. */
    constructor Standard()
      ensures Valid() && View() == map[] && cap == 4096
    {
      cap := MAX_SEQUENCES_PER_DEVICE;
      seen := map[];
    }

    /** The record of a device, made on first sight. */
    method Find(deviceId: seq<byte>) returns (ds: DeviceSeen)
      requires Valid()
      modifies this`seen
      ensures Valid() && seen == old(seen)[deviceId := ds]
      ensures if deviceId in old(seen) then ds == old(seen)[deviceId] else fresh(ds)
      ensures ds.View() == WindowOf(old(View()), deviceId)
    {
      if deviceId in seen {
        ds := seen[deviceId];
      } else {
        ds := new DeviceSeen();
        seen := seen[deviceId := ds];
      }
    }

    method Admit(deviceId: seq<byte>, sequence: uint64) returns (isNew: bool)
      requires Valid()
      modifies this`seen, seen.Values
      ensures Valid()
      ensures View() == old(View())[deviceId := AdmitKey(WindowOf(old(View()), deviceId), sequence, cap).0]
      ensures isNew == AdmitKey(WindowOf(old(View()), deviceId), sequence, cap).1
    {
      var ds := Find(deviceId);
      isNew := ds.Record(sequence, cap);
      ghost var now := old(View())[deviceId := ds.View()];
      assert View() == now by {
        assert View().Keys == now.Keys;
        forall d | d in seen
          ensures seen[d].View() == now[d]
        {
          assert d == deviceId || (seen[d] == old(seen)[d] && seen[d] != ds);
        }
      }
    }

    method EntryCount() returns (total: nat)
      ensures total == |Remembered(View())|
    {
      total := 0;
      var left := seen.Keys;
      ghost var done: map<seq<byte>, Window<uint64>> := map[];
      while left != {}
        invariant left <= seen.Keys
        invariant done == map d | d in seen.Keys - left :: seen[d].View()
        invariant total == |Remembered(done)|
        decreases |left|
      {
        var d :| d in left;
        total := total + |seen[d].members|;
        RememberedGrows(done, d, seen[d].View());
        left := left - {d};
        done := done[d := seen[d].View()];
      }
      assert done == View();
    }

    method DeviceCount() returns (n: nat)
      ensures n == |View()|
    {
      n := |seen|;
      assert View().Keys == seen.Keys;
    }
  }
}
