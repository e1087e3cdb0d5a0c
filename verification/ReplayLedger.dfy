/** The ledger of used CI tokens (internal/hub/oidc.go, `consume`). */
module ReplayLedger {
  import opened Ordering

  datatype Record = Record(digest: string, publisher: string, expires: int)

  /** The ledger file: absent, decoded records with the size of the file, or nothing that decodes. */
  datatype LedgerFile = Missing | Ledger(records: seq<Record>, size: nat) | Unreadable

  const MAX_SIZE := 256 * 1024
  const MAX_RECORDS := 1000
  const MAX_PER_PUBLISHER := 32
  const HORIZON := 630

  predicate Alphanumeric(ch: char) { 'a' <= ch <= 'z' || 'A' <= ch <= 'Z' || '0' <= ch <= '9' }

  predicate WorkspaceName(name: string) {
    1 <= |name| <= 64 && Alphanumeric(name[0]) && forall ch :: ch in name[1..] ==> Alphanumeric(ch) || ch == '_' || ch == '-'
  }

  predicate ValidRecord(e: Record, now: int) {
    |e.digest| == 64 && WorkspaceName(e.publisher) && 0 < e.expires <= now + HORIZON
  }

  // ----- the encoded file -----

  function Decimal(n: nat): string {
    if n < 10 then [('0' as int + n) as char] else Decimal(n / 10) + [('0' as int + n % 10) as char]
  }

  function EncodedRecord(e: Record): string
    requires e.expires >= 0
  {
    "{\"digest\":\"" + e.digest + "\",\"publisher\":\"" + e.publisher + "\",\"expires\":" + Decimal(e.expires) + "}"
  }

  function EncodedList(records: seq<Record>): string
    requires forall e :: e in records ==> e.expires >= 0
  {
    if records == [] then ""
    else
      var front := EncodedList(records[..|records|-1]);
      front + (if |records| == 1 then "" else ",") + EncodedRecord(records[|records|-1])
  }

  function Encoded(records: seq<Record>): string
    requires forall e :: e in records ==> e.expires >= 0
  {
    "[" + EncodedList(records) + "]"
  }

  // ----- specification -----

  function Live(records: seq<Record>, now: int): seq<Record> {
    if records == [] then []
    else
      var front := Live(records[..|records|-1], now);
      if records[|records|-1].expires > now then front + [records[|records|-1]] else front
  }

  function Count(records: seq<Record>, publisher: string): nat {
    if records == [] then 0
    else Count(records[..|records|-1], publisher) + if records[|records|-1].publisher == publisher then 1 else 0
  }

  datatype ConsumeError = InvalidLedger | InvalidRecord | AlreadyUsed | AtCapacity | StorageError

  predicate Readable(file: LedgerFile) {
    file.Missing? || (file.Ledger? && file.size <= MAX_SIZE && |file.records| <= MAX_RECORDS)
  }

  function RecordsOf(file: LedgerFile): seq<Record> { if file.Ledger? then file.records else [] }

  /** The first record that is wrong or matches decides. */
  function ScanError(records: seq<Record>, digest: string, now: int): Option<ConsumeError> {
    if records == [] then None
    else if ScanError(records[..|records|-1], digest, now).Some? then ScanError(records[..|records|-1], digest, now)
    else
      var e := records[|records|-1];
      if !ValidRecord(e, now) then Some(InvalidRecord)
      else if e.expires > now && e.digest == digest then Some(AlreadyUsed)
      else None
  }

  function RefusalOf(file: LedgerFile, r: Record, now: int, written: bool): Option<ConsumeError> {
    if !Readable(file) then Some(InvalidLedger)
    else if ScanError(RecordsOf(file), r.digest, now).Some? then ScanError(RecordsOf(file), r.digest, now)
    else if |Live(RecordsOf(file), now)| >= MAX_RECORDS || Count(Live(RecordsOf(file), now), r.publisher) >= MAX_PER_PUBLISHER then Some(AtCapacity)
    else if !written then Some(StorageError)
    else None
  }

  lemma {:induction false} LiveKeeps(records: seq<Record>, now: int)
    ensures forall e :: e in Live(records, now) <==> e in records && e.expires > now
    ensures |Live(records, now)| <= |records|
    decreases |records|
  {
    if records != [] {
      LiveKeeps(records[..|records|-1], now);
      assert records == records[..|records|-1] + [records[|records|-1]];
    }
  }

  lemma {:induction false} ScanMeans(records: seq<Record>, digest: string, now: int)
    ensures ScanError(records, digest, now).None?
       <==> forall e :: e in records ==> ValidRecord(e, now) && !(e.expires > now && e.digest == digest)
    ensures ScanError(records, digest, now) == Some(InvalidRecord) ==> exists e :: e in records && !ValidRecord(e, now)
    ensures ScanError(records, digest, now).None? || ScanError(records, digest, now) in {Some(InvalidRecord), Some(AlreadyUsed)}
    decreases |records|
  {
    if records != [] {
      var n := |records| - 1;
      ScanMeans(records[..n], digest, now);
      assert records == records[..n] + [records[n]];
    }
  }

  /** The ledger with the token reserved in it. */
  function ReservedIn(file: LedgerFile, r: Record, now: int): LedgerFile
    requires r.expires >= 0 && ScanError(RecordsOf(file), r.digest, now).None?
  {
    ScanMeans(RecordsOf(file), r.digest, now);
    LiveKeeps(RecordsOf(file), now);
    var active := Live(RecordsOf(file), now) + [r];
    Ledger(active, |Encoded(active)|)
  }

  function ConsumeOf(file: LedgerFile, r: Record, now: int, written: bool): (LedgerFile, Option<ConsumeError>)
    requires r.expires >= 0
  {
    var error := RefusalOf(file, r, now, written);
    (if error.None? then ReservedIn(file, r, now) else file, error)
  }

  // ----- the same, as the verifier does it -----

  class Replays {
    var file: LedgerFile

    constructor (file: LedgerFile)
      ensures this.file == file
    {
      this.file := file;
    }

    method Consume(r: Record, now: int, written: bool) returns (error: Option<ConsumeError>)
      requires r.expires >= 0
      modifies this
      ensures (file, error) == ConsumeOf(old(file), r, now, written)
    {
      hide ValidRecord, Encoded;
      if file.Unreadable? || (file.Ledger? && (file.size > MAX_SIZE || |file.records| > MAX_RECORDS)) {
        return Some(InvalidLedger);
      }
      var entries := if file.Ledger? then file.records else [];
      var active: seq<Record> := [];
      var count := 0;
      for i := 0 to |entries|
        invariant active == Live(entries[..i], now) && count == Count(active, r.publisher)
        invariant ScanError(entries[..i], r.digest, now).None?
      {
        var entry := entries[i];
        assert entries[..i+1][..i] == entries[..i];
        if !ValidRecord(entry, now) {
          ErrorIsFirst(entries, i, r.digest, now);
          return Some(InvalidRecord);
        }
        if entry.expires > now {
          if entry.digest == r.digest {
            ErrorIsFirst(entries, i, r.digest, now);
            return Some(AlreadyUsed);
          }
          if entry.publisher == r.publisher {
            count := count + 1;
          }
          assert (active + [entry])[..|active|] == active;
          active := active + [entry];
        }
      }
      assert entries[..|entries|] == entries;
      if |active| >= MAX_RECORDS || count >= MAX_PER_PUBLISHER {
        return Some(AtCapacity);
      }
      if !written {
        return Some(StorageError);
      }
      ScanMeans(entries, r.digest, now);
      LiveKeeps(entries, now);
      ValidIsPositive(entries, now);
      active := active + [r];
      file := Ledger(active, |Encoded(active)|);
      return None;
    }
  }

  lemma ValidIsPositive(records: seq<Record>, now: int)
    requires forall e :: e in records ==> ValidRecord(e, now)
    ensures forall e :: e in records ==> e.expires >= 0
  {}

  lemma {:induction false} ErrorIsFirst(records: seq<Record>, i: nat, digest: string, now: int)
    requires i < |records| && ScanError(records[..i+1], digest, now).Some?
    ensures ScanError(records, digest, now) == ScanError(records[..i+1], digest, now)
    decreases |records|
  {
    if i + 1 == |records| {
      assert records[..i+1] == records;
    } else {
      assert records[..|records|-1][..i+1] == records[..i+1];
      ErrorIsFirst(records[..|records|-1], i, digest, now);
    }
  }

  // ----- what is decided, in numbers -----

  /** The positions of the unexpired records, and of those of one publisher. */
  function LiveAt(records: seq<Record>, now: int): set<nat> {
    set i | 0 <= i < |records| && records[i].expires > now
  }

  function LiveOf(records: seq<Record>, now: int, publisher: string): set<nat> {
    set i | 0 <= i < |records| && records[i].expires > now && records[i].publisher == publisher
  }

  /** One record more adds its position, if it is unexpired. */
  lemma LiveAtMore(front: seq<Record>, e: Record, now: int)
    ensures |LiveAt(front + [e], now)| == |LiveAt(front, now)| + if e.expires > now then 1 else 0
  {
    assert LiveAt(front + [e], now) == LiveAt(front, now) + if e.expires > now then {|front|} else {};
  }

  lemma LiveOfMore(front: seq<Record>, e: Record, now: int, publisher: string)
    ensures |LiveOf(front + [e], now, publisher)| == |LiveOf(front, now, publisher)| + if e.expires > now && e.publisher == publisher then 1 else 0
  {
    assert LiveOf(front + [e], now, publisher) == LiveOf(front, now, publisher) + if e.expires > now && e.publisher == publisher then {|front|} else {};
  }

  lemma {:induction false} LiveIsCounted(records: seq<Record>, now: int, publisher: string)
    ensures |Live(records, now)| == |LiveAt(records, now)| && Count(Live(records, now), publisher) == |LiveOf(records, now, publisher)|
    decreases |records|
  {
    if records == [] {
      assert LiveAt([], now) == {} && LiveOf([], now, publisher) == {};
    } else {
      hide LiveAt, LiveOf;
      var n := |records| - 1;
      var front := Live(records[..n], now);
      LiveIsCounted(records[..n], now, publisher);
      LiveAtMore(records[..n], records[n], now);
      LiveOfMore(records[..n], records[n], now, publisher);
      assert records == records[..n] + [records[n]];
      assert (front + [records[n]])[..|front|] == front;
    }
  }

  lemma WorkspaceNameIff(name: string)
    ensures WorkspaceName(name) <==> 1 <= |name| <= 64 && forall i :: 0 <= i < |name| ==>
      var ch := name[i]; 'a' <= ch <= 'z' || 'A' <= ch <= 'Z' || '0' <= ch <= '9' || (i > 0 && (ch == '_' || ch == '-'))
  {
    if name != "" {
      forall i | 1 <= i < |name| ensures name[i] in name[1..] { assert name[1..][i-1] == name[i]; }
    }
  }

  /**
   * A token is reserved exactly if the file is absent or within 256 KiB and 1000 records, every record in it is well-formed and
   * expires within 630 seconds, none of the unexpired ones is the token's, these number less than 1000, less than 32 for the
   * publisher, and the write succeeds.
   */
  lemma ReservedIff(file: LedgerFile, r: Record, now: int, written: bool)
    requires r.expires >= 0
    ensures ConsumeOf(file, r, now, written).1.None? <==>
      && written && !file.Unreadable? && (file.Ledger? ==> file.size <= 262144 && |file.records| <= 1000)
      && (forall e :: e in RecordsOf(file) ==> |e.digest| == 64 && 0 < e.expires <= now + 630 && 1 <= |e.publisher| <= 64)
      && (forall e, i :: e in RecordsOf(file) && 0 <= i < |e.publisher| ==>
            var ch := e.publisher[i]; 'a' <= ch <= 'z' || 'A' <= ch <= 'Z' || '0' <= ch <= '9' || (i > 0 && (ch == '_' || ch == '-')))
      && (forall e :: e in RecordsOf(file) && e.expires > now ==> e.digest != r.digest)
      && |LiveAt(RecordsOf(file), now)| < 1000 && |LiveOf(RecordsOf(file), now, r.publisher)| < 32
  {
    hide Encoded, WorkspaceName;
    forall e | e in RecordsOf(file)
      ensures WorkspaceName(e.publisher) <==> 1 <= |e.publisher| <= 64 && forall i :: 0 <= i < |e.publisher| ==>
        var ch := e.publisher[i]; 'a' <= ch <= 'z' || 'A' <= ch <= 'Z' || '0' <= ch <= '9' || (i > 0 && (ch == '_' || ch == '-'))
    {
      WorkspaceNameIff(e.publisher);
    }
    ScanMeans(RecordsOf(file), r.digest, now);
    LiveIsCounted(RecordsOf(file), now, r.publisher);
  }

  // ----- the size of the file -----

  function Power(k: nat): nat { if k == 0 then 1 else 10 * Power(k - 1) }

  lemma {:induction false} DecimalIsShort(n: nat, k: nat)
    requires k >= 1 && n < Power(k)
    ensures 1 <= |Decimal(n)| <= k
    decreases k
  {
    if n >= 10 {
      DecimalIsShort(n / 10, k - 1);
    }
  }

  const INT64 := 0x8000_0000_0000_0000

  lemma NineteenDigits(n: nat)
    requires n < INT64
    ensures |Decimal(n)| <= 19
  {
    assert Power(4) == 10000;
    assert Power(8) == 10000_0000 by { assert Power(6) == 1000000; }
    assert Power(12) == 10000_0000_0000 by { assert Power(10) == 100_0000_0000; }
    assert Power(16) == 10000_0000_0000_0000 by { assert Power(14) == 100_0000_0000_0000; }
    assert Power(19) == 1000_0000_0000_0000_0000 by { assert Power(18) == 100_0000_0000_0000_0000; }
    DecimalIsShort(n, 19);
  }

  predicate Storable(e: Record) { |e.digest| == 64 && |e.publisher| <= 64 && 0 < e.expires < INT64 }

  /** At most 187 bytes a record: a full ledger stays far below the size at which it would be refused. */
  lemma {:induction false} EncodedIsSmall(records: seq<Record>)
    requires forall e :: e in records ==> Storable(e) && e.expires >= 0
    ensures |EncodedList(records)| <= 187 * |records|
    decreases |records|
  {
    if records != [] {
      var n := |records| - 1;
      assert records == records[..n] + [records[n]];
      EncodedIsSmall(records[..n]);
      assert Storable(records[n]);
      NineteenDigits(records[n].expires);
    }
  }

  // ----- a ledger that stays acceptable -----

  predicate OnePerDigest(records: seq<Record>) {
    forall i, j :: 0 <= i < j < |records| ==> records[i].digest != records[j].digest
  }

  /** What `consume` leaves behind. */
  ghost predicate Kept(file: LedgerFile, now: int) {
    file.Missing? ||
    (&& file.Ledger? && |file.records| <= MAX_RECORDS && OnePerDigest(file.records)
     && (forall e :: e in file.records ==> ValidRecord(e, now) && e.expires < INT64)
     && file.size == |Encoded(file.records)|
     && (forall p :: Count(file.records, p) <= MAX_PER_PUBLISHER))
  }

  lemma KeptLater(file: LedgerFile, now: int, later: int)
    requires Kept(file, now) && now <= later
    ensures Kept(file, later)
  {
    if file.Ledger? {
      forall e | e in file.records ensures ValidRecord(e, later) { assert ValidRecord(e, now); }
    }
  }

  lemma KeptIsReadable(file: LedgerFile, now: int)
    requires Kept(file, now)
    ensures Readable(file) && forall e :: e in RecordsOf(file) ==> ValidRecord(e, now)
  {
    if file.Ledger? {
      forall e | e in file.records ensures Storable(e) && e.expires >= 0 { assert ValidRecord(e, now); }
      EncodedIsSmall(file.records);
    }
  }

  lemma {:induction false} LiveIsFewer(records: seq<Record>, now: int, p: string)
    ensures Count(Live(records, now), p) <= Count(records, p)
    ensures OnePerDigest(records) ==> OnePerDigest(Live(records, now))
    decreases |records|
  {
    if records != [] {
      var n := |records| - 1;
      LiveIsFewer(records[..n], now, p);
      LiveKeeps(records[..n], now);
      var front := Live(records[..n], now);
      if OnePerDigest(records) && records[n].expires > now {
        forall i | 0 <= i < |front| ensures front[i].digest != records[n].digest {
          assert front[i] in records[..n];
        }
      }
      assert (front + [records[n]])[..|front|] == front;
    }
  }

  predicate Reservable(r: Record, now: int) {
    ValidRecord(r, now) && r.expires < INT64
  }

  /**
   * A kept ledger is accepted at every later time, and a token is reserved in it exactly when it has no live
   * record of it and neither the ledger nor the publisher is full; what is written is kept again.
   */
  lemma {:induction false} ConsumeKeeps(file: LedgerFile, r: Record, earlier: int, now: int, written: bool)
    requires Kept(file, earlier) && earlier <= now && Reservable(r, now)
    ensures var (after, error) := ConsumeOf(file, r, now, written);
            && Kept(after, now) && error != Some(InvalidLedger) && error != Some(InvalidRecord)
            && (error == Some(AlreadyUsed) <==> exists e :: e in RecordsOf(file) && e.expires > now && e.digest == r.digest)
            && (error.None? ==> RecordsOf(after) == Live(RecordsOf(file), now) + [r])
            && (error.Some? ==> after == file)
  {
    hide ValidRecord, Encoded, Readable;
    KeptLater(file, earlier, now);
    KeptIsReadable(file, now);
    var records := RecordsOf(file);
    ScanMeans(records, r.digest, now);
    if RefusalOf(file, r, now, written).None? {
      ReservationKeeps(file, r, now);
    }
  }

  lemma ReservationKeeps(file: LedgerFile, r: Record, now: int)
    requires Kept(file, now) && Reservable(r, now) && ScanError(RecordsOf(file), r.digest, now).None?
    requires |Live(RecordsOf(file), now)| < MAX_RECORDS && Count(Live(RecordsOf(file), now), r.publisher) < MAX_PER_PUBLISHER
    ensures Kept(ReservedIn(file, r, now), now)
  {
    hide ValidRecord, Encoded, Live, Count, OnePerDigest;
    var records := RecordsOf(file);
    var front := Live(records, now);
    LiveKeeps(records, now);
    ScanMeans(records, r.digest, now);
    StillOnePerDigest(records, r, now);
    forall p ensures Count(front + [r], p) <= MAX_PER_PUBLISHER {
      CountOfMore(records, r, now, p);
      KeptCount(file, now, p);
    }
  }

  lemma KeptCount(file: LedgerFile, now: int, p: string)
    requires Kept(file, now)
    ensures Count(RecordsOf(file), p) <= MAX_PER_PUBLISHER
  {
    hide ValidRecord, Encoded, OnePerDigest;
  }

  lemma StillOnePerDigest(records: seq<Record>, r: Record, now: int)
    requires OnePerDigest(records) && forall e :: e in records && e.expires > now ==> e.digest != r.digest
    ensures OnePerDigest(Live(records, now) + [r])
  {
    var front := Live(records, now);
    LiveKeeps(records, now);
    LiveIsFewer(records, now, "");
    forall i | 0 <= i < |front| ensures front[i].digest != r.digest { assert front[i] in records; }
  }

  lemma CountOfMore(records: seq<Record>, r: Record, now: int, p: string)
    ensures Count(Live(records, now) + [r], p) <= if p == r.publisher then Count(Live(records, now), p) + 1 else Count(records, p)
  {
    var front := Live(records, now);
    LiveIsFewer(records, now, p);
    assert (front + [r])[..|front|] == front;
  }
}
