/** The file formats, byte by byte. */
module Formats {
  import opened Options
  import opened Bytes
  import ShardRing
  import PageStorage
  import Replication
  import WalFormat

  // ---------- Numbers ----------

  /** A number of four bytes, the lowest first. */
  predicate LittleEndian(d: Data, n: nat) {
    |d| == 4 && n == d[0] as int + 256 * (d[1] as int) + 0x1_0000 * (d[2] as int) + 0x1_000000 * (d[3] as int)
  }

  lemma {:induction false} U32IsLittleEndian(n: nat)
    requires n < U32_LIMIT
    ensures LittleEndian(U32(n), n) && Number(U32(n)) == n
  {
    U32RoundTrip(n);
    NumberIsLittleEndian(U32(n));
  }

  lemma NumberIsLittleEndian(d: Data)
    requires |d| == 4
    ensures LittleEndian(d, Number(d))
  {
    assert d[1..][1..] == d[2..] && d[2..][1..] == d[3..] && d[3..][1..] == [];
    assert Number(d[3..]) == d[3] as int;
    assert Number(d[2..]) == d[2] as int + 256 * Number(d[3..]);
    assert Number(d[1..]) == d[1] as int + 256 * Number(d[2..]);
  }

  lemma TwoBytes(d: Data)
    requires |d| == 2
    ensures Number(d) == d[0] as int + 256 * (d[1] as int)
  {
    assert d[1..][1..] == [];
    assert Number(d[1..]) == d[1] as int;
  }

  // ---------- The write-ahead log ----------

  /** A log begins with the characters CWL1 and the number 1 in two bytes. */
  lemma LogHeader()
    ensures WalFormat.HEADER == ['C' as int, 'W' as int, 'L' as int, '1' as int, 1, 0]
  {
  }

  /** A record is its operation's number from 1 to 4, the length of the id and the id, the length of
      the payload and the payload, the checksum of the payload in four bytes, and the flag. */
  lemma RecordLayout(r: WalFormat.Framed, crc: WalFormat.Checksum)
    requires WalFormat.Fits(r) && crc(r.payload) < U32_LIMIT
    ensures var e, i, p := WalFormat.Encode(r, crc), 5 + |r.id|, 9 + |r.id| + |r.payload|;
      && |e| == p + 5
      && e[0] as int == (match r.op case Insert => 1 case Update => 2 case Delete => 3 case TxEntry => 4)
      && LittleEndian(e[1..5], |r.id|) && e[5..i] == r.id
      && LittleEndian(e[i..i + 4], |r.payload|) && e[i + 4..p] == r.payload
      && LittleEndian(e[p..p + 4], crc(r.payload)) && e[p + 4] as int == if r.flag then 1 else 0
  {
    var x, y, z := U32(|r.id|), U32(|r.payload|), U32(crc(r.payload));
    U32IsLittleEndian(|r.id|);
    U32IsLittleEndian(|r.payload|);
    U32IsLittleEndian(crc(r.payload));
    SixPieces([WalFormat.OpByte(r.op)], x, r.id, y, r.payload, z, [WalFormat.FlagByte(r)]);
  }

  lemma SixPieces(a: Data, b: Data, c: Data, d: Data, e: Data, f: Data, g: Data)
    requires |a| == 1 && |b| == 4 && |d| == 4 && |f| == 4 && |g| == 1
    ensures var w, i, p := a + (b + (c + (d + (e + f)))) + g, 5 + |c|, 9 + |c| + |e|;
      && |w| == p + 5 && w[0] == a[0] && w[1..5] == b && w[5..i] == c && w[i..i + 4] == d && w[i + 4..p] == e
      && w[p..p + 4] == f && w[p + 4] == g[0]
  {
  }

  /** The bytes of a record with this operation number, checksum and flag, before others. */
  function RecordBytes(op: byte, id: Data, payload: Data, checksum: Data, flag: byte, rest: Data): Data {
    [op] + (U32(|id|) + (id + (U32(|payload|) + (payload + (checksum + ([flag] + rest))))))
  }

  lemma FieldsAreRead(op: byte, id: Data, payload: Data, checksum: Data, flag: byte, rest: Data)
    requires |id| < U32_LIMIT && |payload| < U32_LIMIT && |checksum| == 4
    ensures WalFormat.ReadRaw(RecordBytes(op, id, payload, checksum, flag, rest))
         == WalFormat.Raw(op, id, payload, flag, rest)
  {
    hide WalFormat.ReadField;
    hide U32;
    var last := checksum + ([flag] + rest);
    TakeDrop([op], U32(|id|) + (id + (U32(|payload|) + (payload + last))));
    WalFormat.FieldThere(id, U32(|payload|) + (payload + last));
    WalFormat.FieldThere(payload, last);
    assert last[4] == flag && last[5..] == rest;
  }

  /** A reader takes any flag but zero for committed, passes over what is not committed and over
      transaction entries, and stops at a committed record with another operation number. */
  lemma ReaderDecides(op: byte, id: Data, payload: Data, checksum: Data, flag: byte, rest: Data)
    requires |id| < U32_LIMIT && |payload| < U32_LIMIT && |checksum| == 4
    ensures var next := WalFormat.IterNext(RecordBytes(op, id, payload, checksum, flag, rest));
      if flag == 0 || op == 4 then next == WalFormat.IterNext(rest)
      else if op == 1 then next == WalFormat.Yield(WalFormat.WalRecord(WalFormat.Insert, id, payload), rest)
      else if op == 2 then next == WalFormat.Yield(WalFormat.WalRecord(WalFormat.Update, id, payload), rest)
      else if op == 3 then next == WalFormat.Yield(WalFormat.WalRecord(WalFormat.Delete, id, payload), rest)
      else next == WalFormat.Failed
  {
    hide WalFormat.ReadRaw;
    hide RecordBytes;
    FieldsAreRead(op, id, payload, checksum, flag, rest);
  }

  /** Committing seeks by the two length fields it reads; it fails exactly when one of them is not
      wholly in the file. */
  lemma CommitSeeks(d: Data, offset: nat)
    ensures WalFormat.FlagPosition(d, offset).Some?
       <==> offset + 5 <= |d| && offset + 9 + Number(d[offset + 1..offset + 5]) <= |d|
    ensures WalFormat.FlagPosition(d, offset).Some? ==>
      var payload := offset + 9 + Number(d[offset + 1..offset + 5]);
      WalFormat.FlagPosition(d, offset).value == payload + Number(d[payload - 4..payload]) + 4
  {
  }

  /** A byte written beyond the end of a file leaves zeros before it. */
  lemma ByteIsWritten(d: Data, at: nat, b: byte)
    ensures var d' := WalFormat.WriteByte(d, at, b);
      && at < |d'| && d'[at] == b && |d'| == (if at < |d| then |d| else at + 1)
      && forall i | 0 <= i < |d'| && i != at :: d'[i] == if i < |d| then d[i] else 0
  {
  }

  // ---------- The change feed ----------

  /** A feed begins with the characters CRL1 and the number 1 in two bytes. */
  lemma FeedHeader()
    ensures Replication.HEADER == ['C' as int, 'R' as int, 'L' as int, '1' as int, 1, 0]
  {
  }

  /** A change is the length of its encoding in four bytes and the encoding. */
  lemma FrameLayout(c: Replication.Change, codec: Codec<Replication.Change>)
    requires |codec.encode(c)| < U32_LIMIT
    ensures var f := Replication.Frame(c, codec);
      |f| == 4 + |codec.encode(c)| && LittleEndian(f[..4], |codec.encode(c)|) && f[4..] == codec.encode(c)
  {
    U32IsLittleEndian(|codec.encode(c)|);
    TakeDrop(U32(|codec.encode(c)|), codec.encode(c));
  }

  /** Opening passes over a change that does not decode, and stops at one that is cut. */
  lemma OpeningPassesOver(body: Data, rest: Data, codec: Codec<Replication.Change>)
    requires |body| < U32_LIMIT && codec.decode(body).None?
    ensures Replication.MaxSequence(U32(|body|) + (body + rest), codec) == Replication.MaxSequence(rest, codec)
  {
    U32IsLittleEndian(|body|);
    TakeDrop(U32(|body|), body + rest);
    TakeDrop(body, rest);
  }

  // ---------- The main file ----------

  /** The header page is 4096 bytes: the characters CDB1, version and page size in two bytes each, the
      page count, the first free page and the document count in four each, and zeros. */
  lemma HeaderLayout(h: PageStorage.Header)
    requires PageStorage.HeaderFits(h)
    ensures var e := PageStorage.EncodeHeader(h);
      && |e| == 4096 && e[..4] == ['C' as int, 'D' as int, 'B' as int, '1' as int]
      && h.version == e[4] as int + 256 * (e[5] as int) && h.pageSize == e[6] as int + 256 * (e[7] as int)
      && LittleEndian(e[8..12], h.numPages) && LittleEndian(e[12..16], h.freeListHead) && LittleEndian(e[16..20], h.docCount)
      && forall i | 20 <= i < 4096 :: e[i] == 0
  {
    var v, p := Digits(h.version, 2), Digits(h.pageSize, 2);
    PageStorage.U16RoundTrip(h.version);
    PageStorage.U16RoundTrip(h.pageSize);
    TwoBytes(v);
    TwoBytes(p);
    U32IsLittleEndian(h.numPages);
    U32IsLittleEndian(h.freeListHead);
    U32IsLittleEndian(h.docCount);
    PageStorage.SixFields(PageStorage.MAGIC, v, p, U32(h.numPages), U32(h.freeListHead), U32(h.docCount),
                          PageStorage.Zeros(PageStorage.PAGE_SIZE - 20));
    var e := PageStorage.EncodeHeader(h);
    assert e[4] == e[4..6][0] && e[5] == e[4..6][1] && e[6] == e[6..8][0] && e[7] == e[6..8][1];
  }

  /** A header is read from any 64 bytes or more that begin with those characters, and from no others. */
  lemma HeaderIsRead(d: Data)
    ensures PageStorage.DecodeHeader(d).Ok?
       <==> |d| >= 64 && d[..4] == ['C' as int, 'D' as int, 'B' as int, '1' as int]
  {
  }

  /** Freeing a page writes the old head of the list, in four bytes, at its front and nothing else of
      it; the header, which is the first page, then has it as head. */
  lemma FreedLayout(pages: seq<Data>, h: PageStorage.Header, p: nat)
    requires 1 <= p < |pages| && |pages[p]| >= 4 && h.freeListHead < U32_LIMIT
    ensures var pages' := PageStorage.FreedPages(pages, h, p);
      && |pages'| == |pages| && LittleEndian(pages'[p][..4], h.freeListHead) && pages'[p][4..] == pages[p][4..]
      && pages'[0] == PageStorage.EncodeHeader(h.(freeListHead := p))
      && forall i | 1 <= i < |pages| && i != p :: pages'[i] == pages[i]
  {
    U32IsLittleEndian(h.freeListHead);
    TakeDrop(U32(h.freeListHead), pages[p][4..]);
  }

  // ---------- Names of virtual nodes ----------

  function DigitValue(c: char): int {
    c as int - '0' as int
  }

  /** The value of a decimal numeral. */
  function Value(s: string): int {
    if s == "" then 0 else 10 * Value(s[..|s| - 1]) + DigitValue(s[|s| - 1])
  }

  /** A virtual node's number is written in decimal digits without leading zeros. */
  lemma {:induction false} DecimalReadsBack(n: nat)
    ensures var s := ShardRing.Decimal(n);
      && s != "" && Value(s) == n && (forall c | c in s :: '0' <= c <= '9') && (|s| > 1 ==> s[0] != '0')
    decreases n
  {
    if n >= 10 {
      DecimalReadsBack(n / 10);
      var init := ShardRing.Decimal(n / 10);
      assert (init + [ShardRing.Digit(n % 10)])[..|init|] == init;
      assert |init| == 1 ==> Value(init) == 10 * Value(init[..0]) + DigitValue(init[0]) && Value(init[..0]) == 0;
    } else {
      assert ShardRing.Decimal(n)[..0] == "";
    }
  }

  /** It lies where the hash puts the shard's name, a number sign and that numeral. */
  lemma PointIsHashed(shard: string, v: nat, hash: ShardRing.Hash)
    ensures exists numeral :: numeral != "" && Value(numeral) == v && (|numeral| > 1 ==> numeral[0] != '0')
                              && ShardRing.Point(shard, v, hash) == hash(shard + "#" + numeral)
  {
    DecimalReadsBack(v);
  }
}
