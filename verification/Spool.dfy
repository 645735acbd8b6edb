/** internal/ingest/spool.go: an append-only file of length-prefixed records.
    The payload codec is a parameter; the framing is concrete bytes. */
module Spools {
  import opened Bytes

  /** proto.Marshal and proto.Unmarshal: both may refuse. */
  datatype Codec<!R> = Codec(marshal: R -> Option<seq<byte>>, unmarshal: seq<byte> -> Option<R>)

  /** What protobuf promises: a marshalled record is under 4 GiB and decodes to itself. */
  ghost predicate Lawful<R(!new)>(c: Codec<R>) {
    forall r: R :: c.marshal(r).Some? ==>
      |c.marshal(r).value| < Pow256(4) && c.unmarshal(c.marshal(r).value) == Some(r)
  }

  /** PutUint32 of the length, then the payload. */
  function Frame(payload: seq<byte>): (f: seq<byte>)
    ensures |f| == 4 + |payload|
  {
    BigEndian(|payload|, 4) + payload
  }

  function Frames(payloads: seq<seq<byte>>): seq<byte> {
    if payloads == [] then [] else Frame(payloads[0]) + Frames(payloads[1..])
  }

  /** The records a payload list stands for: undecodable payloads vanish, nothing else does. */
  function Decodable<R>(c: Codec<R>, payloads: seq<seq<byte>>): seq<R> {
    if payloads == [] then []
    else
      match c.unmarshal(payloads[0])
      case None => Decodable(c, payloads[1..])
      case Some(r) => [r] + Decodable(c, payloads[1..])
  }

  /** How many leading frames lie wholly within the first k bytes. */
  function WholeFrames(payloads: seq<seq<byte>>, k: nat): (n: nat)
    ensures n <= |payloads|
  {
    if payloads == [] || k < 4 + |payloads[0]| then 0
    else 1 + WholeFrames(payloads[1..], k - 4 - |payloads[0]|)
  }

  /** What a drain of this byte string returns. */
  function Parse<R>(c: Codec<R>, file: seq<byte>): seq<R> {
    if |file| < 4 then []
    else
      var n := FromBigEndian(file[..4]);
      if |file| < 4 + n then []
      else
        var rest := Parse(c, file[4 + n..]);
        match c.unmarshal(file[4..4 + n])
        case None => rest
        case Some(r) => [r] + rest
  }

  class Spool<R(!new)> {
    const codec: Codec<R>
    var file: seq<byte>

    /** NewSpool: keeps whatever an existing file holds and appends after it. */
    constructor (codec: Codec<R>, existing: seq<byte>)
      ensures this.codec == codec && file == existing
    {
      this.codec := codec;
      file := existing;
    }

    method Write(r: R) returns (ok: bool)
      modifies this
      ensures ok == codec.marshal(r).Some?
      ensures file == if ok then old(file) + Frame(codec.marshal(r).value) else old(file)
    {
      match codec.marshal(r) {
        case None =>
          ok := false;
        case Some(b) =>
          var lenBuf := BigEndian(|b|, 4);
          file := file + lenBuf;
          file := file + b;
          ok := true;
      }
    }

    method Drain() returns (out: seq<R>)
      modifies this
      ensures out == Parse(codec, old(file))
      ensures file == []
    {
      out := [];
      var pos := 0;
      while true
        invariant 0 <= pos <= |file| && file == old(file)
        invariant Parse(codec, file) == out + Parse(codec, file[pos..])
        decreases |file| - pos
      {
        if |file| - pos < 4 {
          break;
        }
        assert file[pos..][..4] == file[pos..pos + 4];
        var n := FromBigEndian(file[pos..pos + 4]);
        if |file| - pos - 4 < n {
          break;
        }
        var buf := file[pos + 4..pos + 4 + n];
        assert file[pos..][4..4 + n] == buf;
        assert file[pos..][4 + n..] == file[pos + 4 + n..];
        match codec.unmarshal(buf) {
          case None =>
          case Some(r) => out := out + [r];
        }
        pos := pos + 4 + n;
      }
      file := [];
    }

    method SizeBytes() returns (n: nat)
      ensures n == |file|
    {
      n := |file|;
    }
  }

  // ---- Framing ----

  lemma ParseFirstFrame<R>(c: Codec<R>, payload: seq<byte>, rest: seq<byte>)
    requires |payload| < Pow256(4)
    ensures Parse(c, Frame(payload) + rest) ==
            match c.unmarshal(payload)
            case None => Parse(c, rest)
            case Some(r) => [r] + Parse(c, rest)
  {
    var file := Frame(payload) + rest;
    BigEndianRoundTrip(|payload|, 4);
    assert file[..4] == BigEndian(|payload|, 4);
    assert file[4..4 + |payload|] == payload;
    assert file[4 + |payload|..] == rest;
  }

  lemma TakePast(a: seq<byte>, b: seq<byte>, k: nat)
    requires |a| <= k <= |a + b|
    ensures (a + b)[..k] == a + b[..k - |a|]
  {
  }

  lemma TornFrame<R>(c: Codec<R>, payload: seq<byte>, rest: seq<byte>, k: nat)
    requires |payload| < Pow256(4) && k < 4 + |payload|
    ensures Parse(c, (Frame(payload) + rest)[..k]) == []
  {
    var torn := (Frame(payload) + rest)[..k];
    BigEndianRoundTrip(|payload|, 4);
    if k >= 4 {
      assert torn[..4] == BigEndian(|payload|, 4);
    }
  }

  /** Draining any byte prefix of a file of frames returns exactly the
      decodable records whose frames lie wholly in the prefix. */
  lemma {:induction false} DrainPrefix<R>(c: Codec<R>, payloads: seq<seq<byte>>, k: nat)
    requires forall i :: 0 <= i < |payloads| ==> |payloads[i]| < Pow256(4)
    requires k <= |Frames(payloads)|
    ensures Parse(c, Frames(payloads)[..k]) == Decodable(c, payloads[..WholeFrames(payloads, k)])
  {
    if payloads != [] {
      var head, tail := payloads[0], payloads[1..];
      if k < 4 + |head| {
        TornFrame(c, head, Frames(tail), k);
      } else {
        var k' := k - 4 - |head|;
        TakePast(Frame(head), Frames(tail), k);
        ParseFirstFrame(c, head, Frames(tail)[..k']);
        DrainPrefix(c, tail, k');
        var n := WholeFrames(tail, k');
        assert payloads[..n + 1][1..] == tail[..n];
      }
    }
  }

  lemma {:induction false} WholeFile(payloads: seq<seq<byte>>)
    ensures WholeFrames(payloads, |Frames(payloads)|) == |payloads|
  {
    if payloads != [] {
      WholeFile(payloads[1..]);
    }
  }

  lemma {:induction false} DecodableConcat<R>(c: Codec<R>, a: seq<seq<byte>>, b: seq<seq<byte>>)
    ensures Decodable(c, a + b) == Decodable(c, a) + Decodable(c, b)
  {
    if a == [] {
      assert a + b == b;
    } else {
      assert (a + b)[1..] == a[1..] + b;
      DecodableConcat(c, a[1..], b);
    }
  }

  lemma {:induction false} FramesSnoc(payloads: seq<seq<byte>>, p: seq<byte>)
    ensures Frames(payloads + [p]) == Frames(payloads) + Frame(p)
  {
    if payloads == [] {
      assert payloads + [p] == [p];
      assert Frames([p]) == Frame(p) + Frames([p][1..]);
    } else {
      assert (payloads + [p])[1..] == payloads[1..] + [p];
      FramesSnoc(payloads[1..], p);
    }
  }

  /** A file of whole frames parses to the decodable part of its payloads. */
  lemma ParseFrames<R>(c: Codec<R>, payloads: seq<seq<byte>>)
    requires forall i :: 0 <= i < |payloads| ==> |payloads[i]| < Pow256(4)
    ensures Parse(c, Frames(payloads)) == Decodable(c, payloads)
  {
    DrainPrefix(c, payloads, |Frames(payloads)|);
    WholeFile(payloads);
    assert Frames(payloads)[..|Frames(payloads)|] == Frames(payloads);
    assert payloads[..|payloads|] == payloads;
  }

  lemma DecodableSkips<R>(c: Codec<R>, before: seq<seq<byte>>, corrupt: seq<byte>, after: seq<seq<byte>>)
    requires c.unmarshal(corrupt) == None
    ensures Decodable(c, before + [corrupt] + after) == Decodable(c, before) + Decodable(c, after)
  {
    DecodableConcat(c, before + [corrupt], after);
    DecodableConcat(c, before, [corrupt]);
    assert Decodable(c, [corrupt]) == [];
  }

  /** A corrupt payload anywhere in the file drops its own record and no other. */
  lemma CorruptRecordDropsItselfOnly<R>(c: Codec<R>, before: seq<seq<byte>>, corrupt: seq<byte>, after: seq<seq<byte>>)
    requires forall i :: 0 <= i < |before| ==> |before[i]| < Pow256(4)
    requires forall i :: 0 <= i < |after| ==> |after[i]| < Pow256(4)
    requires |corrupt| < Pow256(4) && c.unmarshal(corrupt) == None
    ensures Parse(c, Frames(before + [corrupt] + after)) == Parse(c, Frames(before)) + Parse(c, Frames(after))
  {
    ParseFrames(c, before);
    ParseFrames(c, after);
    var all := before + [corrupt] + after;
    forall i | 0 <= i < |all|
      ensures |all[i]| < Pow256(4)
    {
      assert all[i] in before || all[i] == corrupt || all[i] in after;
    }
    ParseFrames(c, all);
    DecodableSkips(c, before, corrupt, after);
  }

  // ---- Files written by Write ----

  /** The file holds the frames of marshalled records and nothing else. */
  ghost predicate WellFramed<R(!new)>(c: Codec<R>, file: seq<byte>) {
    exists rs: seq<R> :: IsImage(c, rs, file)
  }

  function Marshalled<R>(c: Codec<R>, rs: seq<R>): (ps: seq<seq<byte>>)
    requires forall i :: 0 <= i < |rs| ==> c.marshal(rs[i]).Some?
    ensures |ps| == |rs|
    ensures forall i :: 0 <= i < |rs| ==> ps[i] == c.marshal(rs[i]).value
  {
    seq(|rs|, i requires 0 <= i < |rs| => c.marshal(rs[i]).value)
  }

  ghost predicate IsImage<R(!new)>(c: Codec<R>, rs: seq<R>, file: seq<byte>) {
    && (forall i :: 0 <= i < |rs| ==> c.marshal(rs[i]).Some?)
    && file == Frames(Marshalled(c, rs))
  }

  lemma {:induction false} DecodableMarshalled<R(!new)>(c: Codec<R>, rs: seq<R>)
    requires Lawful(c)
    requires forall i :: 0 <= i < |rs| ==> c.marshal(rs[i]).Some?
    ensures Decodable(c, Marshalled(c, rs)) == rs
  {
    if rs != [] {
      DecodableMarshalled(c, rs[1..]);
      assert Marshalled(c, rs)[1..] == Marshalled(c, rs[1..]);
    }
  }

  /** Write everything, drain: the same records in the same order. */
  lemma DrainReturnsWhatWasWritten<R(!new)>(c: Codec<R>, rs: seq<R>, file: seq<byte>)
    requires Lawful(c) && IsImage(c, rs, file)
    ensures Parse(c, file) == rs
  {
    ParseFrames(c, Marshalled(c, rs));
    DecodableMarshalled(c, rs);
  }

  /** One Write on a well-framed file adds one record at the end of what a drain returns. */
  lemma WriteAppendsOneRecord<R(!new)>(c: Codec<R>, file: seq<byte>, r: R)
    requires Lawful(c) && WellFramed(c, file) && c.marshal(r).Some?
    ensures WellFramed(c, file + Frame(c.marshal(r).value))
    ensures Parse(c, file + Frame(c.marshal(r).value)) == Parse(c, file) + [r]
  {
    var rs: seq<R> :| IsImage(c, rs, file);
    var file' := file + Frame(c.marshal(r).value);
    FramesSnoc(Marshalled(c, rs), c.marshal(r).value);
    assert Marshalled(c, rs + [r]) == Marshalled(c, rs) + [c.marshal(r).value];
    assert IsImage(c, rs + [r], file');
    DrainReturnsWhatWasWritten(c, rs, file);
    DrainReturnsWhatWasWritten(c, rs + [r], file');
  }

  lemma EmptyFileIsWellFramed<R(!new)>(c: Codec<R>)
    ensures WellFramed(c, []) && Parse(c, []) == []
  {
    assert IsImage(c, [], []);
  }
}
