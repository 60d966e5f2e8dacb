/** The write-ahead log file: its byte framing, the in-place commit flag and the iterator
    over committed records. */
module WalFormat {
  import opened Options
  import opened Bytes

  datatype WalOp = Insert | Update | Delete | TxEntry

  function OpByte(op: WalOp): byte {
    match op
    case Insert => 1
    case Update => 2
    case Delete => 3
    case TxEntry => 4
  }

  /** What a reader of the log gets: a committed record. */
  datatype WalRecord = WalRecord(op: WalOp, id: Data, payload: Data)

  /** A record as it stands in the file, with its commit flag. */
  datatype Framed = Framed(op: WalOp, id: Data, payload: Data, flag: bool)

  /** "CWL1" and version 1. */
  const HEADER: Data := [67, 87, 76, 49, 1, 0]

  /** The checksum function; nothing reads what it computes. */
  type Checksum = Data -> nat

  function Encode(r: Framed, crc: Checksum): (d: Data)
    ensures |d| == 14 + |r.id| + |r.payload|
  {
    Body(r, crc) + [FlagByte(r)]
  }

  function FlagByte(r: Framed): byte {
    if r.flag then 1 else 0
  }

  /** Everything before the flag. */
  function Body(r: Framed, crc: Checksum): (d: Data)
    ensures |d| == 13 + |r.id| + |r.payload|
  {
    [OpByte(r.op)] + (U32(|r.id|) + (r.id + (U32(|r.payload|) + (r.payload + U32(crc(r.payload))))))
  }

  function EncodeAll(rs: seq<Framed>, crc: Checksum): Data {
    if rs == [] then [] else Encode(rs[0], crc) + EncodeAll(rs[1..], crc)
  }

  /** Lengths that the 32-bit length fields can hold. */
  predicate Fits(r: Framed) {
    |r.id| < U32_LIMIT && |r.payload| < U32_LIMIT
  }

  predicate AllFit(rs: seq<Framed>) {
    forall r | r in rs :: Fits(r)
  }

  // ---------- Reading ----------

  /** What one record's reads find at the front of a stream. */
  datatype RawRead = Eof | Torn | Raw(op: byte, id: Data, payload: Data, flag: byte, rest: Data)

  /** A length and that many bytes. */
  function ReadField(d: Data): (r: Option<(Data, Data)>)
    ensures r.Some? ==> |r.value.1| + 4 + |r.value.0| == |d|
  {
    if |d| < 4 || |d[4..]| < Number(d[..4]) then None
    else Some((d[4..][..Number(d[..4])], d[4..][Number(d[..4])..]))
  }

  /** A missing first byte is the end, anything else missing is an error. */
  function ReadRaw(d: Data): (r: RawRead)
    ensures r.Raw? ==> |r.rest| < |d|
  {
    if d == [] then Eof
    else
      var id := ReadField(d[1..]);
      if id.None? then Torn
      else
        var payload := ReadField(id.value.1);
        if payload.None? || |payload.value.1| < 5 then Torn
        else Raw(d[0], id.value.0, payload.value.0, payload.value.1[4], payload.value.1[5..])
  }

  function OpOf(b: byte): Option<WalOp> {
    if b == 1 then Some(Insert) else if b == 2 then Some(Update) else if b == 3 then Some(Delete)
    else if b == 4 then Some(TxEntry) else None
  }

  datatype Item = End | Failed | Yield(record: WalRecord, rest: Data)

  /** `WalIter::next`: skips uncommitted and transaction records. */
  function IterNext(d: Data): (r: Item)
    ensures r.Yield? ==> |r.rest| < |d|
    decreases |d|
  {
    var raw := ReadRaw(d);
    if raw.Eof? then End
    else if raw.Torn? then Failed
    else if raw.flag == 0 || raw.op == 4 then IterNext(raw.rest)
    else if OpOf(raw.op).None? then Failed
    else Yield(WalRecord(OpOf(raw.op).value, raw.id, raw.payload), raw.rest)
  }

  /** What a loop over the iterator collects until its end or its first error. */
  function Scan(d: Data): (seq<WalRecord>, bool)
    decreases |d|
  {
    var item := IterNext(d);
    if item.End? then ([], true)
    else if item.Failed? then ([], false)
    else var (rest, clean) := Scan(item.rest); ([item.record] + rest, clean)
  }

  predicate Shown(r: Framed) {
    r.flag && r.op != TxEntry
  }

  function Showing(r: Framed): seq<WalRecord> {
    if Shown(r) then [WalRecord(r.op, r.id, r.payload)] else []
  }

  /** The flagged records other than transaction entries, in order. */
  function Visible(rs: seq<Framed>): seq<WalRecord> {
    if rs == [] then [] else Showing(rs[0]) + Visible(rs[1..])
  }

  // ---------- Framing ----------

  lemma {:induction false} EncodeAllJoin(a: seq<Framed>, b: seq<Framed>, crc: Checksum)
    ensures EncodeAll(a + b, crc) == EncodeAll(a, crc) + EncodeAll(b, crc)
  {
    hide Encode;
    if a == [] {
      assert a + b == b;
    } else {
      EncodeAllJoin(a[1..], b, crc);
      assert (a + b)[1..] == a[1..] + b && (a + b)[0] == a[0];
      Associate(Encode(a[0], crc), EncodeAll(a[1..], crc), EncodeAll(b, crc));
    }
  }

  lemma FieldThere(x: Data, rest: Data)
    requires |x| < U32_LIMIT
    ensures ReadField(U32(|x|) + (x + rest)) == Some((x, rest))
  {
    U32RoundTrip(|x|);
    TakeDrop(U32(|x|), x + rest);
    TakeDrop(x, rest);
  }

  /** A length field that is cut, or whose bytes are. */
  lemma FieldCut(x: Data, d: Data)
    requires |x| < U32_LIMIT && |d| < 4 + |x| && d == (U32(|x|) + x)[..|d|]
    ensures ReadField(d) == None
  {
    if |d| >= 4 {
      U32RoundTrip(|x|);
      assert d[..4] == U32(|x|);
    }
  }

  /** Reading where an encoded record starts gives that record and what follows it. */
  lemma ReadEncoded(r: Framed, rest: Data, crc: Checksum)
    requires Fits(r)
    ensures ReadRaw(Encode(r, crc) + rest) == Raw(OpByte(r.op), r.id, r.payload, FlagByte(r), rest)
  {
    var last := U32(crc(r.payload)) + ([FlagByte(r)] + rest);
    var fields := U32(|r.id|) + (r.id + (U32(|r.payload|) + (r.payload + last)));
    assert Encode(r, crc) + rest == [OpByte(r.op)] + fields;
    TakeDrop([OpByte(r.op)], fields);
    FieldThere(r.id, U32(|r.payload|) + (r.payload + last));
    FieldThere(r.payload, last);
    assert last[4] == FlagByte(r) && last[5..] == rest;
  }

  /** Reading where only a proper part of an encoded record is left is an error, or the end
      when nothing is left. */
  lemma ReadCut(r: Framed, d: Data, crc: Checksum)
    requires Fits(r) && |d| < |Encode(r, crc)| && d == Encode(r, crc)[..|d|]
    ensures ReadRaw(d) == if d == [] then Eof else Torn
  {
    if d != [] {
      var last := U32(crc(r.payload)) + [FlagByte(r)];
      var second := U32(|r.payload|) + (r.payload + last);
      assert Encode(r, crc) == [OpByte(r.op)] + (U32(|r.id|) + (r.id + second));
      var fields := d[1..];
      assert fields == (U32(|r.id|) + (r.id + second))[..|fields|];
      if |fields| < 4 + |r.id| {
        assert fields == (U32(|r.id|) + r.id)[..|fields|];
        FieldCut(r.id, fields);
      } else {
        var more := second[..|fields| - 4 - |r.id|];
        assert fields == U32(|r.id|) + (r.id + more);
        FieldThere(r.id, more);
        SecondCut(r, more, last);
      }
    }
  }

  lemma SecondCut(r: Framed, more: Data, last: Data)
    requires Fits(r) && |last| == 5 && |more| < 9 + |r.payload|
    requires more == (U32(|r.payload|) + (r.payload + last))[..|more|]
    ensures ReadField(more).None? || |ReadField(more).value.1| < 5
  {
    var p := r.payload;
    if |more| < 4 + |p| {
      assert more == (U32(|p|) + p)[..|more|];
      FieldCut(p, more);
    } else {
      var end := last[..|more| - 4 - |p|];
      assert more == U32(|p|) + (p + end);
      FieldThere(p, end);
    }
  }

  /** The visible records among the whole ones in the first `cut` bytes of the encoding of `rs`. */
  function VisibleWithin(rs: seq<Framed>, crc: Checksum, cut: nat): seq<WalRecord> {
    if rs == [] || cut < |Encode(rs[0], crc)| then []
    else Showing(rs[0]) + VisibleWithin(rs[1..], crc, cut - |Encode(rs[0], crc)|)
  }

  /** Whether the first `cut` bytes of the encoding of `rs` end where a record ends. */
  predicate Boundary(rs: seq<Framed>, crc: Checksum, cut: nat) {
    || cut == 0
    || (rs != [] && |Encode(rs[0], crc)| <= cut && Boundary(rs[1..], crc, cut - |Encode(rs[0], crc)|))
  }

  lemma IterNextStep(d: Data, r: Framed, rest: Data)
    requires ReadRaw(d) == Raw(OpByte(r.op), r.id, r.payload, FlagByte(r), rest)
    ensures IterNext(d) == if Shown(r) then Yield(WalRecord(r.op, r.id, r.payload), rest) else IterNext(rest)
  {
  }

  /** One step of the scan over a record that is wholly there. */
  lemma ScanStep(d: Data, r: Framed, rest: Data)
    requires IterNext(d) == if Shown(r) then Yield(WalRecord(r.op, r.id, r.payload), rest) else IterNext(rest)
    ensures Scan(d) == (Showing(r) + Scan(rest).0, Scan(rest).1)
  {
    if !Shown(r) {
      assert Scan(d) == Scan(rest);
      assert [] + Scan(rest).0 == Scan(rest).0;
    }
  }

  lemma ScanOver(r: Framed, rest: Data, crc: Checksum)
    requires Fits(r)
    ensures Scan(Encode(r, crc) + rest) == (Showing(r) + Scan(rest).0, Scan(rest).1)
  {
    var d := Encode(r, crc) + rest;
    ReadEncoded(r, rest, crc);
    IterNextStep(d, r, rest);
    ScanStep(d, r, rest);
  }

  lemma ScanNothing()
    ensures Scan([]) == ([], true)
  {
    assert ReadRaw([]) == Eof;
  }

  lemma ScanTorn(r: Framed, d: Data, crc: Checksum)
    requires Fits(r) && |d| < |Encode(r, crc)| && d == Encode(r, crc)[..|d|]
    ensures Scan(d) == ([], d == [])
  {
    ReadCut(r, d, crc);
  }

  lemma {:induction false} ScanCut(rs: seq<Framed>, crc: Checksum, cut: nat)
    requires AllFit(rs) && cut <= |EncodeAll(rs, crc)|
    ensures Scan(EncodeAll(rs, crc)[..cut]) == (VisibleWithin(rs, crc, cut), Boundary(rs, crc, cut))
    decreases |rs|
  {
    hide IterNext;
    hide Encode;
    if rs == [] {
      ScanNothing();
    } else {
      var e, tail := Encode(rs[0], crc), EncodeAll(rs[1..], crc);
      CutJoin(e, tail, cut);
      if |e| <= cut {
        ScanCut(rs[1..], crc, cut - |e|);
        ScanOver(rs[0], tail[..cut - |e|], crc);
      } else {
        ScanTorn(rs[0], e[..cut], crc);
      }
    }
  }

  lemma CutAfter(a: Data, b: Data, cut: nat)
    requires |a| <= cut <= |a + b|
    ensures (a + b)[..cut][|a|..] == b[..cut - |a|]
  {
  }

  lemma {:induction false} VisibleJoin(a: seq<Framed>, b: seq<Framed>)
    ensures Visible(a + b) == Visible(a) + Visible(b)
  {
    if a == [] {
      assert a + b == b;
    } else {
      VisibleJoin(a[1..], b);
      assert (a + b)[1..] == a[1..] + b && (a + b)[0] == a[0];
      Associate(Showing(a[0]), Visible(a[1..]), Visible(b));
    }
  }

  /** The cut falls within record k, or where it starts. */
  predicate CutsIn(rs: seq<Framed>, crc: Checksum, cut: nat, k: nat) {
    k <= |rs| && |EncodeAll(rs[..k], crc)| <= cut && (k < |rs| ==> cut < |EncodeAll(rs[..k + 1], crc)|)
  }

  lemma {:induction false} WithinIsPrefix(rs: seq<Framed>, crc: Checksum, cut: nat, k: nat)
    requires CutsIn(rs, crc, cut, k) && cut <= |EncodeAll(rs, crc)|
    ensures VisibleWithin(rs, crc, cut) == Visible(rs[..k])
    ensures Boundary(rs, crc, cut) <==> cut == |EncodeAll(rs[..k], crc)|
    decreases |rs|
  {
    hide Encode;
    hide Showing;
    if k == 0 {
      assert rs[..0] == [];
      if rs != [] {
        FirstOf(rs, crc, 1);
      }
    } else {
      var e := |Encode(rs[0], crc)|;
      FirstOf(rs, crc, k);
      if k < |rs| {
        FirstOf(rs, crc, k + 1);
      }
      WithinIsPrefix(rs[1..], crc, cut - e, k - 1);
      assert rs[..k][1..] == rs[1..][..k - 1];
    }
  }

  lemma FirstOf(rs: seq<Framed>, crc: Checksum, k: nat)
    requires 0 < k <= |rs|
    ensures |EncodeAll(rs[..k], crc)| == |Encode(rs[0], crc)| + |EncodeAll(rs[1..][..k - 1], crc)|
  {
    hide Encode;
    assert rs[..k][1..] == rs[1..][..k - 1];
  }

  /** Every cut falls within some record or at the end. */
  lemma {:induction false} CutsSomewhere(rs: seq<Framed>, crc: Checksum, cut: nat) returns (k: nat)
    requires cut <= |EncodeAll(rs, crc)|
    ensures CutsIn(rs, crc, cut, k)
    decreases |rs|
  {
    assert rs[..0] == [];
    if rs == [] {
      k := 0;
    } else {
      FirstOf(rs, crc, 1);
      assert rs[1..][..0] == [];
      if cut < |Encode(rs[0], crc)| {
        k := 0;
      } else {
        k := CutsSomewhere(rs[1..], crc, cut - |Encode(rs[0], crc)|);
        k := k + 1;
        FirstOf(rs, crc, k);
        if k < |rs| {
          FirstOf(rs, crc, k + 1);
        }
      }
    }
  }

  /** On any cut that keeps the header, reading yields the visible records among the whole ones,
      a prefix of all visible ones, then a clean end if and only if the cut is on a record boundary. */
  lemma ScanPrefix(rs: seq<Framed>, crc: Checksum, cut: nat) returns (k: nat)
    requires AllFit(rs) && |HEADER| <= cut <= |HEADER + EncodeAll(rs, crc)|
    ensures CutsIn(rs, crc, cut - |HEADER|, k)
    ensures var (items, clean) := Scan((HEADER + EncodeAll(rs, crc))[..cut][|HEADER|..]);
            && items == Visible(rs[..k]) && items <= Visible(rs)
            && (clean <==> cut == Offset(rs, crc, k))
  {
    hide *;
    k := CutsSomewhere(rs, crc, cut - |HEADER|);
    ScanCutIn(rs, crc, cut, k);
  }

  lemma ScanCutIn(rs: seq<Framed>, crc: Checksum, cut: nat, k: nat)
    requires AllFit(rs) && |HEADER| <= cut <= |HEADER + EncodeAll(rs, crc)|
    requires CutsIn(rs, crc, cut - |HEADER|, k)
    ensures var (items, clean) := Scan((HEADER + EncodeAll(rs, crc))[..cut][|HEADER|..]);
            && items == Visible(rs[..k]) && items <= Visible(rs)
            && (clean <==> cut == Offset(rs, crc, k))
  {
    hide EncodeAll;
    hide Visible;
    hide VisibleWithin;
    hide Boundary;
    hide Scan;
    hide Encode;
    CutAfter(HEADER, EncodeAll(rs, crc), cut);
    ScanCut(rs, crc, cut - |HEADER|);
    WithinIsPrefix(rs, crc, cut - |HEADER|, k);
    VisibleJoin(rs[..k], rs[k..]);
    assert rs == rs[..k] + rs[k..];
  }

  /** Reading a whole log yields exactly its visible records. */
  lemma ScanAll(rs: seq<Framed>, crc: Checksum)
    requires AllFit(rs)
    ensures Scan((HEADER + EncodeAll(rs, crc))[|HEADER|..]) == (Visible(rs), true)
  {
    var d := HEADER + EncodeAll(rs, crc);
    assert rs[..|rs|] == rs && d[..|d|] == d;
    ScanCutIn(rs, crc, |d|, |rs|);
  }

  // ---------- Committing in place ----------

  /** A one-byte write; beyond the end it first fills the gap with zeros. */
  function WriteByte(d: Data, at: nat, b: byte): Data {
    if at < |d| then d[at := b] else d + seq(at - |d|, _ => 0) + [b]
  }

  /** Where record k starts. */
  function Offset(rs: seq<Framed>, crc: Checksum, k: nat): nat
    requires k <= |rs|
  {
    |HEADER| + |EncodeAll(rs[..k], crc)|
  }

  function Flagged(rs: seq<Framed>, k: nat): seq<Framed>
    requires k < |rs|
  {
    rs[k := rs[k].(flag := true)]
  }

  lemma AppendEncoded(rs: seq<Framed>, r: Framed, crc: Checksum)
    ensures HEADER + EncodeAll(rs, crc) + Encode(r, crc) == HEADER + EncodeAll(rs + [r], crc)
  {
    hide Encode;
    EncodeAllJoin(rs, [r], crc);
    assert [r][1..] == [] && EncodeAll([], crc) == [];
    assert EncodeAll([r], crc) == Encode(r, crc) + [] == Encode(r, crc);
    hide EncodeAll;
    Associate(HEADER, EncodeAll(rs, crc), Encode(r, crc));
  }

  /** A file around its record k. */
  lemma FileAround(rs: seq<Framed>, crc: Checksum, k: nat)
    requires k < |rs|
    ensures HEADER + EncodeAll(rs, crc)
         == (HEADER + EncodeAll(rs[..k], crc)) + (Encode(rs[k], crc) + EncodeAll(rs[k + 1..], crc))
  {
    hide Encode;
    assert rs == rs[..k] + rs[k..];
    EncodeAllJoin(rs[..k], rs[k..], crc);
    TailEncoded(rs, crc, k);
    hide EncodeAll;
    Associate(HEADER, EncodeAll(rs[..k], crc), EncodeAll(rs[k..], crc));
  }

  lemma TailEncoded(rs: seq<Framed>, crc: Checksum, k: nat)
    requires k < |rs|
    ensures EncodeAll(rs[k..], crc) == Encode(rs[k], crc) + EncodeAll(rs[k + 1..], crc)
  {
    hide Encode;
    assert rs[k..][1..] == rs[k + 1..] && rs[k..][0] == rs[k];
  }

  lemma Regroup(a: Data, b: Data, x: byte, c: Data)
    ensures a + ((b + [x]) + c) == (a + b) + [x] + c
  {
  }

  /** Setting the last byte of record k to 1 is what flagging it does to the file. */
  lemma FlagInPlace(rs: seq<Framed>, crc: Checksum, k: nat)
    requires k < |rs|
    ensures var file, at := HEADER + EncodeAll(rs, crc), Offset(rs, crc, k) + |Body(rs[k], crc)|;
            at < |file| && file[at := 1] == HEADER + EncodeAll(Flagged(rs, k), crc)
  {
    var rs' := Flagged(rs, k);
    FileAround(rs, crc, k);
    FileAround(rs', crc, k);
    assert rs'[..k] == rs[..k] && rs'[k + 1..] == rs[k + 1..];
    var a, b, c := HEADER + EncodeAll(rs[..k], crc), Body(rs[k], crc), EncodeAll(rs[k + 1..], crc);
    assert Body(rs'[k], crc) == b && FlagByte(rs'[k]) == 1;
    Regroup(a, b, FlagByte(rs[k]), c);
    Regroup(a, b, 1, c);
    SetInMiddle(a + b, FlagByte(rs[k]), c, 1);
  }

  lemma EncodeLengths(r: Framed, crc: Checksum)
    requires Fits(r)
    ensures var e, i := Encode(r, crc), |r.id|;
            Number(e[1..5]) == i && Number(e[5 + i..9 + i]) == |r.payload|
  {
    var x, y, end := U32(|r.id|), U32(|r.payload|), r.payload + U32(crc(r.payload)) + [FlagByte(r)];
    var e := Encode(r, crc);
    assert e == [OpByte(r.op)] + (x + (r.id + (y + end)));
    SliceThere([OpByte(r.op)], x, r.id + (y + end));
    var front := [OpByte(r.op)] + x + r.id;
    assert e == front + (y + end);
    SliceThere(front, y, end);
    U32RoundTrip(|r.id|);
    U32RoundTrip(|r.payload|);
  }

  /** Where the seeks of `commit_record` end: past the fields, whose lengths they read. */
  function FlagPosition(d: Data, offset: nat): Option<nat> {
    if offset + 5 > |d| then None
    else
      var payloadLen := offset + 5 + Number(d[offset + 1..offset + 5]);
      if payloadLen + 4 > |d| then None
      else Some(payloadLen + 4 + Number(d[payloadLen..payloadLen + 4]) + 4)
  }

  /** The seeks find the flag of the record they start at. */
  lemma SeeksToFlag(rs: seq<Framed>, crc: Checksum, k: nat)
    requires k < |rs| && Fits(rs[k])
    ensures FlagPosition(HEADER + EncodeAll(rs, crc), Offset(rs, crc, k))
         == Some(Offset(rs, crc, k) + |Body(rs[k], crc)|)
  {
    hide EncodeAll;
    hide Encode;
    hide Body;
    FileAround(rs, crc, k);
    EncodeLengths(rs[k], crc);
    var a, e, c := HEADER + EncodeAll(rs[..k], crc), Encode(rs[k], crc), EncodeAll(rs[k + 1..], crc);
    SliceWithin(a, e, c, 1, 5);
    SliceWithin(a, e, c, 5 + |rs[k].id|, 9 + |rs[k].id|);
  }

  lemma SliceWithin(a: Data, b: Data, c: Data, lo: nat, hi: nat)
    requires lo <= hi <= |b|
    ensures (a + (b + c))[|a| + lo..|a| + hi] == b[lo..hi]
  {
  }

  lemma SliceThere(a: Data, b: Data, c: Data)
    ensures (a + (b + c))[|a|..|a| + |b|] == b
  {
  }

  // ---------- The file object ----------

  datatype WalError = BadMagic | BadVersion | UnexpectedEof

  /** Field after field, a record's encoding. */
  lemma FieldsAreRecord(was: Data, op: WalOp, id: Data, payload: Data, checksum: nat, r: Framed, crc: Checksum)
    requires r == Framed(op, id, payload, false) && checksum == crc(payload)
    ensures was + [OpByte(op)] + U32(|id|) + id + U32(|payload|) + payload + U32(checksum) + [0] == was + Encode(r, crc)
  {
    hide OpByte;
  }

  class Wal {
    const crc: Checksum
    var file: Data
    var txCounter: nat
    /** What the file holds after its header. */
    ghost var records: seq<Framed>

    ghost predicate Valid()
      reads this
    {
      file == HEADER + EncodeAll(records, crc)
    }

    /** `Wal::open` on a file with the given contents. */
    static method Open(contents: Data, ghost held: seq<Framed>, crc: Checksum) returns (r: Result<Wal, WalError>)
      ensures contents == [] ==> r.Ok? && r.value.Valid() && r.value.records == []
      ensures contents == HEADER + EncodeAll(held, crc) ==> r.Ok? && r.value.Valid() && r.value.records == held
      ensures r.Ok? ==> fresh(r.value) && r.value.crc == crc && r.value.file == if contents == [] then HEADER else contents
      ensures r.Ok? <==> contents == [] || HEADER <= contents
      ensures r == Err(BadMagic) <==> |contents| >= 4 && contents[..4] != HEADER[..4]
      ensures r == Err(BadVersion) <==> |contents| >= 6 && contents[..4] == HEADER[..4] && contents[4..6] != HEADER[4..]
    {
      if contents == [] {
        var wal := new Wal(HEADER, [], crc);
        assert HEADER == HEADER + [];
        return Ok(wal);
      }
      if |contents| < 4 {
        return Err(UnexpectedEof);
      }
      if contents[..4] != HEADER[..4] {
        return Err(BadMagic);
      }
      if |contents| < 6 {
        return Err(UnexpectedEof);
      }
      if contents[4..6] != HEADER[4..] {
        return Err(BadVersion);
      }
      assert contents[..6] == contents[..4] + contents[4..6];
      assert HEADER == HEADER[..4] + HEADER[4..];
      var wal := new Wal(contents, held, crc);
      return Ok(wal);
    }

    constructor (file: Data, ghost held: seq<Framed>, crc: Checksum)
      ensures this.file == file && records == held && this.crc == crc && txCounter == 0
    {
      this.file, records, this.crc, txCounter := file, held, crc, 0;
    }

    /** Writes an unflagged record behind whatever the file holds, a torn tail included. */
    method AppendRecord(op: WalOp, id: Data, payload: Data) returns (offset: nat)
      modifies this
      ensures file == old(file) + Encode(Framed(op, id, payload, false), crc)
      ensures offset == |old(file)| && txCounter == old(txCounter)
      ensures old(Valid()) ==>
        && Valid() && records == old(records) + [Framed(op, id, payload, false)]
        && offset == Offset(records, crc, |old(records)|)
    {
      offset := |file|;
      var checksum := crc(payload);
      ghost var r := Framed(op, id, payload, false);
      ghost var was := file;
      file := file + [OpByte(op)];
      file := file + U32(|id|);
      file := file + id;
      file := file + U32(|payload|);
      file := file + payload;
      file := file + U32(checksum);
      file := file + [0];
      FieldsAreRecord(was, op, id, payload, checksum, r, crc);
      hide Encode;
      hide EncodeAll;
      AppendEncoded(records, r, crc);
      ghost var rs := records;
      records := records + [r];
      assert records[..|rs|] == rs;
    }

    /** `commit_record`: seeks over the fields, whose lengths it reads at the offset, and writes one
        byte there. At a record whose lengths fit their fields that is its flag and nothing else
        changes; it fails when a length field is not in the file. */
    method CommitRecord(offset: nat, ghost k: nat) returns (ok: bool)
      modifies this
      ensures txCounter == old(txCounter)
      ensures ok <==> FlagPosition(old(file), offset).Some?
      ensures file == if ok then WriteByte(old(file), FlagPosition(old(file), offset).value, 1) else old(file)
      ensures && old(Valid()) && k < |old(records)| && Fits(old(records)[k])
              && offset == Offset(old(records), crc, k) ==>
                && ok && Valid() && records == Flagged(old(records), k) && |file| == |old(file)|
                && (forall i | 0 <= i < |file| && i != offset + |Body(old(records)[k], crc)| :: file[i] == old(file)[i])
    {
      ghost var there := Valid() && k < |records| && Fits(records[k]) && offset == Offset(records, crc, k);
      if there {
        SeeksToFlag(records, crc, k);
        FlagInPlace(records, crc, k);
      }
      hide FlagPosition;
      hide Encode;
      hide EncodeAll;
      var at := FlagPosition(file, offset);
      if at.None? {
        return false;
      }
      file := WriteByte(file, at.value, 1);
      if there {
        records := Flagged(records, k);
      }
      return true;
    }

    /** Collects what the iterator of committed records yields. */
    method IterCommitted() returns (items: seq<WalRecord>, clean: bool)
      requires |file| >= 6
      ensures (items, clean) == Scan(file[6..])
    {
      items := [];
      var reader := file[6..];
      while true
        invariant Scan(file[6..]).0 == items + Scan(reader).0 && Scan(file[6..]).1 == Scan(reader).1
        decreases |reader|
      {
        var item := IterNext(reader);
        assert items + [] == items;
        match item {
          case End =>
            return items, true;
          case Failed =>
            return items, false;
          case Yield(record, rest) =>
            assert items + ([record] + Scan(rest).0) == items + [record] + Scan(rest).0;
            items := items + [record];
            reader := rest;
        }
      }
    }

    /** `reset`: truncates the file to its header. */
    method Reset()
      requires Valid()
      modifies this
      ensures Valid() && records == [] && file == HEADER
    {
      assert HEADER + [] == HEADER;
      file := file[..6];
      records := [];
    }
  }
}
