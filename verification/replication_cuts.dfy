/** Feed files that end in a part of a record: which open, and what an append behind the part does. */
module FeedCuts {
  import opened Options
  import opened Bytes
  import opened Replication

  /** The cut keeps record k of the file and is before the end of the next. */
  predicate CutsAfter(cs: Changes, codec: Codec<Change>, cut: nat, k: nat) {
    && k <= |cs| && |File(cs[..k], codec)| <= cut
    && (k < |cs| ==> cut < |File(cs[..k], codec)| + |Frame(cs[k], codec)|)
  }

  lemma EncodedTo(cs: Changes, codec: Codec<Change>, k: nat)
    requires k < |cs|
    ensures |EncodeChanges(cs[..k + 1], codec)| == |EncodeChanges(cs[..k], codec)| + |Frame(cs[k], codec)|
    ensures EncodeChanges(cs, codec)
         == EncodeChanges(cs[..k], codec) + (Frame(cs[k], codec) + EncodeChanges(cs[k + 1..], codec))
  {
    hide Frame;
    assert cs[..k + 1] == cs[..k] + [cs[k]] && [cs[k]][1..] == [];
    EncodeJoin(cs[..k], [cs[k]], codec);
    assert cs == cs[..k] + cs[k..] && cs[k..][1..] == cs[k + 1..];
    EncodeJoin(cs[..k], cs[k..], codec);
  }

  lemma {:induction false} CutSomewhere(cs: Changes, codec: Codec<Change>, cut: nat, k: nat) returns (found: nat)
    requires k <= |cs| && |File(cs[..k], codec)| <= cut <= |File(cs, codec)|
    ensures CutsAfter(cs, codec, cut, found)
    decreases |cs| - k
  {
    hide Frame;
    if k < |cs| {
      EncodedTo(cs, codec, k);
      if cut >= |File(cs[..k], codec)| + |Frame(cs[k], codec)| {
        found := CutSomewhere(cs, codec, cut, k + 1);
        return;
      }
    }
    return k;
  }

  /** A cut file is the file of the records kept and the front of the next frame. */
  lemma CutIsTail(cs: Changes, codec: Codec<Change>, cut: nat, k: nat)
    requires CutsAfter(cs, codec, cut, k) && cut <= |File(cs, codec)|
    ensures var extra := cut - |File(cs[..k], codec)|;
      File(cs, codec)[..cut] == File(cs[..k], codec) + if k < |cs| then Frame(cs[k], codec)[..extra] else []
  {
    hide Frame;
    if k < |cs| {
      EncodedTo(cs, codec, k);
      var front, frame, rest := File(cs[..k], codec), Frame(cs[k], codec), EncodeChanges(cs[k + 1..], codec);
      Associate(HEADER, EncodeChanges(cs[..k], codec), frame + rest);
      CutJoin(front, frame + rest, cut);
      CutJoin(frame, rest, cut - |front|);
    } else {
      assert cs[..k] == cs;
    }
  }

  /** Behind whole records, reading goes on with what follows them. */
  lemma {:induction false} ReadPast(cs: Changes, tail: Data, start: nat, codec: Codec<Change>)
    requires Fit(cs, codec) && Lawful(codec)
    ensures ChangesFrom(EncodeChanges(cs, codec) + tail, start, codec)
         == (Since(cs, start) + ChangesFrom(tail, start, codec).0, ChangesFrom(tail, start, codec).1)
    ensures MaxSequence(EncodeChanges(cs, codec) + tail, codec)
         == if MaxSequence(tail, codec).None? then None else Some(Max(Largest(cs), MaxSequence(tail, codec).value))
  {
    hide ReadFrame;
    hide Frame;
    if cs == [] {
      assert EncodeChanges(cs, codec) + tail == tail;
      assert Since(cs, start) + ChangesFrom(tail, start, codec).0 == ChangesFrom(tail, start, codec).0;
    } else {
      var rest := EncodeChanges(cs[1..], codec) + tail;
      Associate(Frame(cs[0], codec), EncodeChanges(cs[1..], codec), tail);
      ReadFrameThere(cs[0], rest, codec);
      assert codec.decode(codec.encode(cs[0])) == Some(cs[0]);
      assert forall c | c in cs[1..] :: c in cs;
      ReadPast(cs[1..], tail, start, codec);
      Associate(if cs[0].sequence >= start then [cs[0]] else [], Since(cs[1..], start), ChangesFrom(tail, start, codec).0);
    }
  }

  lemma PartOfFrame(c: Change, extra: nat, codec: Codec<Change>)
    requires |codec.encode(c)| < U32_LIMIT && extra < |Frame(c, codec)|
    ensures ReadFrame(Frame(c, codec)[..extra]) == if extra < 4 then NoFrame else CutFrame
  {
    var body := codec.encode(c);
    U32RoundTrip(|body|);
    if extra >= 4 {
      CutJoin(U32(|body|), body, extra);
      TakeDrop(U32(|body|), body[..extra - 4]);
    }
  }

  /** Reading a well-formed feed up to any cut: up to three bytes behind the last whole record are
      taken for the end, and the numbering goes on after it; more are an error. */
  lemma CutFeed(cs: Changes, codec: Codec<Change>, cut: nat, start: nat) returns (k: nat)
    requires Fit(cs, codec) && Lawful(codec) && Numbered(cs) && |HEADER| <= cut <= |File(cs, codec)|
    ensures CutsAfter(cs, codec, cut, k)
    ensures var d, few := File(cs, codec)[..cut][|HEADER|..], cut < |File(cs[..k], codec)| + 4;
      && MaxSequence(d, codec) == (if few then Some(k) else None)
      && ChangesFrom(d, start, codec) == (Since(cs[..k], start), few)
  {
    assert cs[..0] == [] && HEADER + [] == HEADER;
    k := CutSomewhere(cs, codec, cut, 0);
    hide Frame;
    CutIsTail(cs, codec, cut, k);
    var extra := cut - |File(cs[..k], codec)|;
    var tail := if k < |cs| then Frame(cs[k], codec)[..extra] else [];
    assert forall c | c in cs[..k] :: c in cs;
    Associate(HEADER, EncodeChanges(cs[..k], codec), tail);
    TakeDrop(HEADER, EncodeChanges(cs[..k], codec) + tail);
    ReadPast(cs[..k], tail, start, codec);
    LargestOfNumberedLog(cs[..k]);
    if k < |cs| {
      assert cs[k] in cs;
      PartOfFrame(cs[k], extra, codec);
    }
    assert Since(cs[..k], start) + [] == Since(cs[..k], start);
  }

  // ---------- Appending behind a part of a length field ----------

  /** The length that is read when a new frame stands behind part of an old length field. */
  function MixedLength(stray: Data, n: nat): nat
    requires |stray| <= 4
  {
    Number(stray + U32(n)[..4 - |stray|])
  }

  lemma MixedFrame(stray: Data, c: Change, codec: Codec<Change>)
    requires |stray| < 4
    ensures var n := |codec.encode(c)|;
      ReadFrame(stray + Frame(c, codec)).CutFrame? <==> MixedLength(stray, n) > |stray| + n
  {
    var n := |codec.encode(c)|;
    var d := stray + Frame(c, codec);
    assert d[..4] == stray + U32(n)[..4 - |stray|];
  }

  /** A record appended behind one to three stray bytes: when the length that is now read is more
      than what follows it, the feed cannot be opened again and no follower gets past the records
      before. */
  lemma AppendSpoils(cs: Changes, stray: Data, c: Change, start: nat, codec: Codec<Change>)
    requires Fit(cs, codec) && Lawful(codec) && 1 <= |stray| < 4
    requires MixedLength(stray, |codec.encode(c)|) > |stray| + |codec.encode(c)|
    ensures var d := EncodeChanges(cs, codec) + (stray + Frame(c, codec));
      MaxSequence(d, codec) == None && ChangesFrom(d, start, codec) == (Since(cs, start), false)
  {
    hide Frame;
    hide ReadFrame;
    MixedFrame(stray, c, codec);
    ReadPast(cs, stray + Frame(c, codec), start, codec);
    assert Since(cs, start) + [] == Since(cs, start);
  }

  lemma FourBytes(d: Data, a: int, b: int, c: int, e: int)
    requires |d| == 4 && d[0] == a && d[1] == b && d[2] == c && d[3] == e
    ensures Number(d) == a + 256 * b + 0x1_0000 * c + 0x1_000000 * e
  {
    assert d[1..][1..] == d[2..] && d[2..][1..] == d[3..] && d[3..][1..] == [];
    assert Number(d[3..]) == e;
    assert Number(d[2..]) == c + 256 * Number(d[3..]);
    assert Number(d[1..]) == b + 256 * Number(d[2..]);
  }

  lemma LowDigits(n: nat)
    requires n < 0x1_0000
    ensures U32(n)[0] == n % 256 && U32(n)[1] == n / 256 && U32(n)[2] == 0
  {
    assert Digits(n, 4) == [n % 256] + Digits(n / 256, 3);
    assert Digits(n / 256, 3) == [n / 256 % 256] + Digits(n / 256 / 256, 2);
    assert Digits(n / 256 / 256, 2) == [n / 256 / 256 % 256] + Digits(n / 256 / 256 / 256, 1);
  }

  /** Every record shorter than 64 KiB whose length is no multiple of 256 is lost in this way. */
  lemma ShortRecordsSpoil(stray: Data, n: nat)
    requires 1 <= |stray| < 4 && n < 0x1_0000 && n % 256 != 0
    ensures MixedLength(stray, n) > |stray| + n
  {
    LowDigits(n);
    var mixed := stray + U32(n)[..4 - |stray|];
    FourBytes(mixed, mixed[0], mixed[1], mixed[2], mixed[3]);
  }

  /** A feed cut one to three bytes behind a whole record opens; after one more record of less than
      64 KiB, whose length is no multiple of 256, it does not open again, and a follower never
      gets past the records kept. */
  lemma AppendBehindCut(cs: Changes, codec: Codec<Change>, cut: nat, c: Change, start: nat) returns (k: nat)
    requires Fit(cs, codec) && Lawful(codec) && Numbered(cs) && |HEADER| <= cut <= |File(cs, codec)|
    requires |codec.encode(c)| < 0x1_0000 && |codec.encode(c)| % 256 != 0
    ensures CutsAfter(cs, codec, cut, k)
    ensures var before, after := File(cs, codec)[..cut], File(cs, codec)[..cut] + Frame(c, codec);
      |File(cs[..k], codec)| < cut < |File(cs[..k], codec)| + 4 ==>
        && MaxSequence(before[|HEADER|..], codec) == Some(k)
        && MaxSequence(after[|HEADER|..], codec) == None
        && ChangesFrom(after[|HEADER|..], start, codec) == (Since(cs[..k], start), false)
  {
    hide Frame;
    hide ChangesFrom;
    hide MaxSequence;
    hide MixedLength;
    k := CutFeed(cs, codec, cut, start);
    CutIsTail(cs, codec, cut, k);
    var extra := cut - |File(cs[..k], codec)|;
    if 0 < extra < 4 {
      var kept, stray := EncodeChanges(cs[..k], codec), Frame(cs[k], codec)[..extra];
      assert forall x | x in cs[..k] :: x in cs;
      ShortRecordsSpoil(stray, |codec.encode(c)|);
      AppendSpoils(cs[..k], stray, c, start, codec);
      Associate(HEADER + kept, stray, Frame(c, codec));
      Associate(HEADER, kept, stray + Frame(c, codec));
      TakeDrop(HEADER, kept + (stray + Frame(c, codec)));
    }
  }
}
