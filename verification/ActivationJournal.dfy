/**
The activation journal (src/desktop-activation-journal.js): one file per phase, each holding the digest of the
file before it. The reader accepts a whole directory or refuses it; appending adds one file.
*/
module ActivationJournal {
  import opened Evidence
  import opened Wrappers

  datatype Phase =
    | Prepared | TrialStarting | TrialRunning | TrialHealthy | RegistrationCas | DiscoveryPublished
    | PrivateTicketVerified | PromotedAttachVerified | Completed | BarrierCleared
    | RollbackPending | RollbackComplete

  function Next(p: Phase): set<Phase> {
    match p
    case Prepared => {TrialStarting, RollbackPending}
    case TrialStarting => {TrialRunning, RollbackPending}
    case TrialRunning => {TrialHealthy, RollbackPending}
    case TrialHealthy => {RegistrationCas, RollbackPending}
    case RegistrationCas => {DiscoveryPublished, RollbackPending}
    case DiscoveryPublished => {PrivateTicketVerified, RollbackPending}
    case PrivateTicketVerified => {PromotedAttachVerified}
    case PromotedAttachVerified => {Completed}
    case Completed => {BarrierCleared}
    case RollbackPending => {RollbackComplete}
    case BarrierCleared => {}
    case RollbackComplete => {}
  }

  datatype Identity = Identity(operationId: string, installationId: string, dataId: string)

  datatype Record = Record(identity: Identity, sequence: nat, phase: Phase, previous: Option<Digest>, evidence: Digest)

  datatype Receipt = Receipt(record: Record, sha: Digest)

  // Records as text, and text read as a record of exactly the eight fields.
  datatype Codec = Codec(encode: Record -> Bytes, parse: Bytes -> Option<Record>)

  // A record's text reads back as the record; a write cut short reads as nothing, or as the same record where only
  // the final line feed is missing.
  ghost predicate Faithful(c: Codec) {
    forall r :: Readable(c, r)
  }

  ghost predicate Readable(c: Codec, r: Record) {
    && c.parse(c.encode(r)) == Some(r)
    && (forall n: nat :: n <= |c.encode(r)| ==> CutShort(c, r, n))
  }

  ghost predicate CutShort(c: Codec, r: Record, n: nat)
    requires n <= |c.encode(r)|
  {
    c.parse(c.encode(r)[..n]).Some? ==> c.parse(c.encode(r)[..n]) == Some(r)
  }

  const RECEIPT_LIMIT := 2048
  const CAPACITY := 10

  // activation-NN.json, or any other name.
  datatype Name = Numbered(index: nat) | Foreign(name: string)

  datatype Entry = File(bytes: Bytes) | NotAFile

  // A missing directory reads as an empty one.
  type Directory = map<Name, Entry>

  /** What the reader accepts. */

  function BytesAt(dir: Directory, k: nat): Bytes {
    if Numbered(k) in dir && dir[Numbered(k)].File? then dir[Numbered(k)].bytes else []
  }

  function PreviousSha(dir: Directory, k: nat): Option<Digest> {
    if k == 0 then None else Some(Sha256(BytesAt(dir, k - 1)))
  }

  predicate Holds(c: Codec, dir: Directory, k: nat) {
    && Numbered(k) in dir && dir[Numbered(k)].File?
    && 1 <= |BytesAt(dir, k)| <= RECEIPT_LIMIT
    && c.parse(BytesAt(dir, k)).Some?
  }

  // The k-th file is the record that may follow the one before it.
  predicate Link(c: Codec, id: Identity, dir: Directory, k: nat) {
    && Holds(c, dir, k)
    && var r := c.parse(BytesAt(dir, k)).value;
    && r.identity == id && r.sequence == k && r.previous == PreviousSha(dir, k)
    && (if k == 0 then r.phase == Prepared
        else Holds(c, dir, k - 1) && r.phase in Next(c.parse(BytesAt(dir, k - 1)).value.phase))
  }

  predicate OnlyReceipts(dir: Directory) {
    |dir| <= CAPACITY && forall name <- dir :: name.Numbered? && dir[name].File?
  }

  predicate Accepted(c: Codec, id: Identity, dir: Directory) {
    OnlyReceipts(dir) && forall k: nat :: k < |dir| ==> Link(c, id, dir, k)
  }

  function ReceiptAt(c: Codec, dir: Directory, k: nat): Receipt
    requires Holds(c, dir, k)
  {
    Receipt(c.parse(BytesAt(dir, k)).value, Sha256(BytesAt(dir, k)))
  }

  function Receipts(c: Codec, id: Identity, dir: Directory): (rs: seq<Receipt>)
    requires Accepted(c, id, dir)
    ensures |rs| == |dir|
  {
    seq(|dir|, k requires 0 <= k < |dir| => assert Link(c, id, dir, k); ReceiptAt(c, dir, k))
  }

  function Phases(receipts: seq<Receipt>): seq<Phase> {
    seq(|receipts|, k requires 0 <= k < |receipts| => receipts[k].record.phase)
  }

  ghost predicate ReadSoFar(c: Codec, id: Identity, dir: Directory, records: seq<Receipt>) {
    forall k: nat :: k < |records| ==> Link(c, id, dir, k) && records[k] == ReceiptAt(c, dir, k)
  }

  lemma ReadAll(c: Codec, id: Identity, dir: Directory, records: seq<Receipt>)
    requires OnlyReceipts(dir) && |records| == |dir| && ReadSoFar(c, id, dir, records)
    ensures Accepted(c, id, dir) && records == Receipts(c, id, dir)
  {
  }

  method ReadJournal(c: Codec, id: Identity, dir: Directory) returns (r: Option<seq<Receipt>>)
    ensures r == if Accepted(c, id, dir) then Some(Receipts(c, id, dir)) else None
  {
    if !OnlyReceipts(dir) {
      return None;
    }
    var records: seq<Receipt> := [];
    var previous: Option<Digest> := None;
    var previousPhase: Option<Phase> := None;
    var index := 0;
    while index < |dir|
      invariant index <= |dir| && |records| == index
      invariant ReadSoFar(c, id, dir, records)
      invariant previous == PreviousSha(dir, index)
      invariant index > 0 ==> previousPhase == Some(records[index - 1].record.phase)
    {
      assert index > 0 ==> Link(c, id, dir, index - 1);
      // The sorted names are distinct and numbered, so the index-th is the wanted one exactly when it is present.
      if Numbered(index) !in dir {
        assert !Link(c, id, dir, index);
        return None;
      }
      var bytes := dir[Numbered(index)].bytes;
      var value := c.parse(bytes);
      if |bytes| < 1 || |bytes| > RECEIPT_LIMIT || value.None?
        || value.value.identity != id || value.value.sequence != index || value.value.previous != previous
        || (if index == 0 then value.value.phase != Prepared else value.value.phase !in Next(previousPhase.value))
      {
        assert !Link(c, id, dir, index);
        return None;
      }
      assert Link(c, id, dir, index);
      previous, previousPhase := Some(Sha256(bytes)), Some(value.value.phase);
      records := records + [Receipt(value.value, Sha256(bytes))];
      index := index + 1;
    }
    ReadAll(c, id, dir, records);
    return Some(records);
  }

  /** Appending. */

  function RecordFor(c: Codec, id: Identity, dir: Directory, phase: Phase, evidence: Digest): Record {
    Record(id, |dir|, phase, PreviousSha(dir, |dir|), evidence)
  }

  predicate Appendable(c: Codec, id: Identity, dir: Directory, phase: Phase) {
    && Accepted(c, id, dir) && |dir| < CAPACITY
    && (if |dir| == 0 then phase == Prepared else phase in Next(Receipts(c, id, dir)[|dir| - 1].record.phase))
  }

  lemma LastReceipt(c: Codec, id: Identity, dir: Directory)
    requires Accepted(c, id, dir)
    ensures PreviousSha(dir, |dir|) == if |dir| == 0 then None else Some(Receipts(c, id, dir)[|dir| - 1].sha)
  {
  }

  predicate Fits(c: Codec, r: Record) {
    1 <= |c.encode(r)| <= RECEIPT_LIMIT
  }

  // The directory once `stored` bytes of the next receipt are in it.
  function WithFile(c: Codec, dir: Directory, r: Record, stored: nat): Directory
    requires stored <= |c.encode(r)|
  {
    dir[Numbered(|dir|) := File(c.encode(r)[..stored])]
  }

  // What one append leaves: its receipt if the process lived, and the directory.
  function Appended(c: Codec, id: Identity, dir: Directory, phase: Phase, evidence: Digest, diesAfter: Option<nat>)
    : (Option<Receipt>, Directory)
  {
    var r := RecordFor(c, id, dir, phase, evidence);
    if !Appendable(c, id, dir, phase) then (None, dir)
    else if diesAfter.Some? && diesAfter.value <= |c.encode(r)| then (None, WithFile(c, dir, r, diesAfter.value))
    // A receipt that is too long is found so only when it is read again; its file stays.
    else if !Fits(c, r) then (None, WithFile(c, dir, r, |c.encode(r)|))
    else (Some(Receipt(r, Sha256(c.encode(r)))), WithFile(c, dir, r, |c.encode(r)|))
  }

  class JournalDirectory {
    var entries: Directory

    constructor (entries: Directory)
      ensures this.entries == entries
    {
      this.entries := entries;
    }

    // diesAfter: the process is lost with that much of the file stored.
    method AppendPhase(c: Codec, id: Identity, phase: Phase, evidence: Digest, diesAfter: Option<nat>)
      returns (receipt: Option<Receipt>)
      requires Faithful(c)
      modifies this
      ensures (receipt, entries) == Appended(c, id, old(entries), phase, evidence, diesAfter)
    {
      hide Accepted, Receipts, ReceiptAt, Faithful, BytesAt, PreviousSha, OnlyReceipts;
      var records := ReadJournal(c, id, entries);
      if records.None? {
        return None;
      }
      var index := |records.value|;
      if index >= CAPACITY
        || (if index == 0 then phase != Prepared else phase !in Next(records.value[index - 1].record.phase))
      {
        return None;
      }
      var previous := if index == 0 then None else Some(records.value[index - 1].sha);
      var record := Record(id, index, phase, previous, evidence);
      var bytes := c.encode(record);
      var name := Numbered(index);
      LastReceipt(c, id, entries);
      if diesAfter.Some? && diesAfter.value <= |bytes| {
        entries := entries[name := File(bytes[..diesAfter.value])];
        return None;
      }
      assert bytes[..|bytes|] == bytes;
      if Fits(c, record) {
        AppendExtends(c, id, entries, phase, evidence);
      } else {
        UnreadableLength(c, id, entries, record, |bytes|);
      }
      entries := entries[name := File(bytes)];
      var checked := ReadJournal(c, id, entries);
      if checked.None? || |checked.value| != index + 1 || checked.value[index].sha != Sha256(bytes) {
        return None;
      }
      return Some(checked.value[index]);
    }
  }

  /** The directory of an accepted journal. */

  function Numbers(n: nat): (s: set<Name>)
    ensures |s| == n && forall m :: m in s <==> m.Numbered? && m.index < n
  {
    if n == 0 then {} else Numbers(n - 1) + {Numbered(n - 1)}
  }

  /** An accepted journal holds exactly the files 0 to n-1. */
  lemma NamesAreConsecutive(c: Codec, id: Identity, dir: Directory)
    requires Accepted(c, id, dir)
    ensures dir.Keys == Numbers(|dir|)
  {
    forall m <- Numbers(|dir|)
      ensures m in dir.Keys
    {
      assert Link(c, id, dir, m.index);
    }
    SubsetOfSameSize(Numbers(|dir|), dir.Keys);
  }

  lemma SubsetOfSameSize<T>(a: set<T>, b: set<T>)
    requires a <= b && |a| == |b|
    ensures a == b
  {
    assert |b - a| == |b| - |a|;
  }

  lemma NextNameIsFree(c: Codec, id: Identity, dir: Directory)
    requires Accepted(c, id, dir)
    ensures Numbered(|dir|) !in dir
  {
    NamesAreConsecutive(c, id, dir);
  }

  /** Appending a permitted phase leaves an accepted journal with the earlier receipts and the new one. */
  lemma AppendExtends(c: Codec, id: Identity, dir: Directory, phase: Phase, evidence: Digest)
    requires Faithful(c) && Appendable(c, id, dir, phase) && Fits(c, RecordFor(c, id, dir, phase, evidence))
    ensures var r := RecordFor(c, id, dir, phase, evidence);
      var after := WithFile(c, dir, r, |c.encode(r)|);
      && Accepted(c, id, after)
      && Receipts(c, id, after) == Receipts(c, id, dir) + [Receipt(r, Sha256(c.encode(r)))]
  {
    var r := RecordFor(c, id, dir, phase, evidence);
    assert Readable(c, r);
    assert c.encode(r)[..|c.encode(r)|] == c.encode(r);
    ExtendedByText(c, id, dir, phase, evidence, |c.encode(r)|);
  }

  // Whatever was stored, if it reads as a record it is the next link.
  lemma ExtendedByText(c: Codec, id: Identity, dir: Directory, phase: Phase, evidence: Digest, stored: nat)
    requires Appendable(c, id, dir, phase)
    requires var r := RecordFor(c, id, dir, phase, evidence);
      && stored <= |c.encode(r)| && 1 <= stored <= RECEIPT_LIMIT && c.parse(c.encode(r)[..stored]) == Some(r)
    ensures var r := RecordFor(c, id, dir, phase, evidence);
      var after := WithFile(c, dir, r, stored);
      && Accepted(c, id, after)
      && Receipts(c, id, after) == Receipts(c, id, dir) + [Receipt(r, Sha256(c.encode(r)[..stored]))]
  {
    var r := RecordFor(c, id, dir, phase, evidence);
    var after := WithFile(c, dir, r, stored);
    NextNameIsFree(c, id, dir);
    assert after.Keys == dir.Keys + {Numbered(|dir|)};
    assert |after| == |dir| + 1;
    forall k: nat | k < |after|
      ensures Link(c, id, after, k)
      ensures ReceiptAt(c, after, k) == if k < |dir| then ReceiptAt(c, dir, k) else Receipt(r, Sha256(c.encode(r)[..stored]))
    {
      LinkExtends(c, id, dir, after, r, stored, k);
    }
    hide Link, Holds, ReceiptAt, BytesAt, PreviousSha, RecordFor;
    assert OnlyReceipts(after);
    assert |Receipts(c, id, after)| == |dir| + 1;
  }

  lemma LinkExtends(c: Codec, id: Identity, dir: Directory, after: Directory, r: Record, stored: nat, k: nat)
    requires Accepted(c, id, dir) && Numbered(|dir|) !in dir && k <= |dir|
    requires Appendable(c, id, dir, r.phase) && r == RecordFor(c, id, dir, r.phase, r.evidence)
    requires stored <= |c.encode(r)| && 1 <= stored <= RECEIPT_LIMIT && c.parse(c.encode(r)[..stored]) == Some(r)
    requires after == WithFile(c, dir, r, stored)
    ensures k < |dir| ==> Link(c, id, dir, k) && Link(c, id, after, k) && ReceiptAt(c, after, k) == ReceiptAt(c, dir, k)
    ensures k == |dir| ==> Link(c, id, after, k) && ReceiptAt(c, after, k) == Receipt(r, Sha256(c.encode(r)[..stored]))
  {
    assert k < |dir| ==> Link(c, id, dir, k);
    assert |dir| > 0 ==> Link(c, id, dir, |dir| - 1);
  }

  // A file that is empty or too long is not accepted, whatever it says.
  lemma UnreadableLength(c: Codec, id: Identity, dir: Directory, r: Record, stored: nat)
    requires Accepted(c, id, dir) && stored <= |c.encode(r)| && !(1 <= stored <= RECEIPT_LIMIT)
    ensures !Accepted(c, id, WithFile(c, dir, r, stored))
  {
    var torn := WithFile(c, dir, r, stored);
    NextNameIsFree(c, id, dir);
    assert |torn| == |dir| + 1 by {
      assert torn.Keys == dir.Keys + {Numbered(|dir|)};
    }
    assert !Link(c, id, torn, |dir|);
  }

  /** A process lost in an append leaves a journal that the reader accepts exactly when what was stored reads as a record;
      it then says what was being recorded, and never anything else. */
  lemma TornAppendTellsNoLie(c: Codec, id: Identity, dir: Directory, phase: Phase, evidence: Digest, stored: nat)
    requires Faithful(c) && Appendable(c, id, dir, phase)
    requires stored <= |c.encode(RecordFor(c, id, dir, phase, evidence))|
    ensures var r := RecordFor(c, id, dir, phase, evidence);
      var torn := WithFile(c, dir, r, stored);
      && (Accepted(c, id, torn) <==> 0 < stored <= RECEIPT_LIMIT && c.parse(c.encode(r)[..stored]).Some?)
      && (Accepted(c, id, torn) ==>
            Receipts(c, id, torn) == Receipts(c, id, dir) + [Receipt(r, Sha256(c.encode(r)[..stored]))])
  {
    var r := RecordFor(c, id, dir, phase, evidence);
    var torn := WithFile(c, dir, r, stored);
    NextNameIsFree(c, id, dir);
    assert |torn| == |dir| + 1 by {
      assert torn.Keys == dir.Keys + {Numbered(|dir|)};
    }
    assert Accepted(c, id, torn) ==> Link(c, id, torn, |dir|);
    assert Readable(c, r) && CutShort(c, r, stored);
    if 0 < stored <= RECEIPT_LIMIT && c.parse(c.encode(r)[..stored]).Some? {
      ExtendedByText(c, id, dir, phase, evidence, stored);
    }
  }

  /** What an accepted journal is, file by file. */

  // The file is there, within its bounds, and reads as the record that says so and follows the bytes before it.
  predicate IsReceipt(c: Codec, id: Identity, dir: Directory, k: nat) {
    && Numbered(k) in dir && dir[Numbered(k)].File?
    && 1 <= |dir[Numbered(k)].bytes| <= 2048
    && c.parse(dir[Numbered(k)].bytes).Some?
    && var r := c.parse(dir[Numbered(k)].bytes).value;
    && r.identity == id && r.sequence == k
    && (if k == 0 then r.previous.None?
        else Numbered(k - 1) in dir && dir[Numbered(k - 1)].File? && r.previous == Some(Sha256(dir[Numbered(k - 1)].bytes)))
  }

  lemma AcceptedExact(c: Codec, id: Identity, dir: Directory)
    ensures Accepted(c, id, dir)
      <==> |dir| <= 10 && (forall name <- dir :: name.Numbered? && dir[name].File?)
           && (forall k: nat :: k < |dir| ==> IsReceipt(c, id, dir, k))
           && IsPath(seq(|dir|, k requires 0 <= k < |dir| => PhaseAt(c, dir, k)))
  {
    var ps := seq(|dir|, k requires 0 <= k < |dir| => PhaseAt(c, dir, k));
    if Accepted(c, id, dir) {
      forall k: nat | k < |dir|
        ensures IsReceipt(c, id, dir, k) && ps[k] == Phases(Receipts(c, id, dir))[k]
      {
        assert Link(c, id, dir, k);
      }
      assert ps == Phases(Receipts(c, id, dir));
      AcceptedIsPath(c, id, dir);
    } else if (forall k: nat :: k < |dir| ==> IsReceipt(c, id, dir, k)) && IsPath(ps) {
      forall k: nat | k < |dir|
        ensures Link(c, id, dir, k)
      {
        assert ps[k] == PhaseAt(c, dir, k) && (k > 0 ==> ps[k - 1] == PhaseAt(c, dir, k - 1));
        LinkFollows(c, id, dir, k);
      }
    }
  }

  lemma LinkFollows(c: Codec, id: Identity, dir: Directory, k: nat)
    requires k < |dir| && IsReceipt(c, id, dir, k) && (k > 0 ==> IsReceipt(c, id, dir, k - 1))
    requires if k == 0 then PhaseAt(c, dir, 0) == Prepared else PhaseAt(c, dir, k) in Next(PhaseAt(c, dir, k - 1))
    ensures Link(c, id, dir, k)
  {
  }

  function PhaseAt(c: Codec, dir: Directory, k: nat): Phase {
    var r := c.parse(BytesAt(dir, k));
    if r.Some? then r.value.phase else RollbackComplete
  }

  /** Phases form a path. */

  ghost predicate IsPath(ps: seq<Phase>) {
    && (ps != [] ==> ps[0] == Prepared)
    && forall k :: 0 < k < |ps| ==> ps[k] in Next(ps[k - 1])
  }

  lemma AcceptedIsPath(c: Codec, id: Identity, dir: Directory)
    requires Accepted(c, id, dir)
    ensures IsPath(Phases(Receipts(c, id, dir)))
  {
    var ps := Phases(Receipts(c, id, dir));
    forall k | 0 < k < |ps|
      ensures ps[k] in Next(ps[k - 1])
    {
      assert Link(c, id, dir, k);
    }
    assert ps != [] ==> Link(c, id, dir, 0);
  }

  // How far along the forward chain a phase stands.
  function Rank(p: Phase): nat {
    match p
    case Prepared => 0
    case TrialStarting => 1
    case TrialRunning => 2
    case TrialHealthy => 3
    case RegistrationCas => 4
    case DiscoveryPublished => 5
    case PrivateTicketVerified => 6
    case PromotedAttachVerified => 7
    case Completed => 8
    case BarrierCleared => 9
    case RollbackPending => 6
    case RollbackComplete => 7
  }

  /** Every forward phase has one place in every path, and the rollback phases come no later than their rank. */
  lemma {:induction false} PlaceOfPhase(ps: seq<Phase>, k: nat)
    requires IsPath(ps) && k < |ps|
    ensures if ps[k] in {RollbackPending, RollbackComplete} then k <= Rank(ps[k]) else k == Rank(ps[k])
    ensures ps[k] == RollbackComplete ==> k == |ps| - 1 && k > 0 && ps[k - 1] == RollbackPending
    ensures ps[k] == RollbackPending ==> |ps| <= k + 2
    decreases |ps| - k, k
  {
    if k > 0 {
      PlaceFrom(ps, k - 1);
      assert ps[k] in Next(ps[k - 1]);
    }
    if k + 1 < |ps| {
      assert ps[k + 1] in Next(ps[k]);
      if k + 2 < |ps| {
        assert ps[k + 2] in Next(ps[k + 1]);
      }
    }
  }

  lemma {:induction false} PlaceFrom(ps: seq<Phase>, k: nat)
    requires IsPath(ps) && k < |ps|
    ensures if ps[k] in {RollbackPending, RollbackComplete} then k <= Rank(ps[k]) else k == Rank(ps[k])
  {
    if k > 0 {
      PlaceFrom(ps, k - 1);
      assert ps[k] in Next(ps[k - 1]);
    }
  }

  const FORWARD: seq<Phase> := [
    Prepared, TrialStarting, TrialRunning, TrialHealthy, RegistrationCas, DiscoveryPublished, PrivateTicketVerified,
    PromotedAttachVerified, Completed, BarrierCleared]

  // Forward to some point, and from one of the first six back.
  ghost predicate IsCourse(ps: seq<Phase>) {
    exists b :: IsCourseTo(ps, b)
  }

  predicate IsCourseTo(ps: seq<Phase>, b: int) {
    && 0 <= b <= |ps| && b <= 10 && (forall j :: 0 <= j < b ==> ps[j] == FORWARD[j])
    && (|ps| > b ==> 1 <= b <= 6 && |ps| <= b + 2 && ps[b] == RollbackPending)
    && (|ps| == b + 2 ==> ps[b + 1] == RollbackComplete)
  }

  /** The paths are the ways forward, each of which may be left for the way back until a ticket was verified. */
  lemma PathsAreCourses(ps: seq<Phase>)
    ensures IsPath(ps) <==> IsCourse(ps)
  {
    if IsPath(ps) {
      PathIsCourse(ps);
    }
    if b :| IsCourseTo(ps, b) {
      CourseIsPath(ps, b);
    }
  }

  lemma NextIsForwardOrBack(n: nat, p: Phase)
    requires 1 <= n <= 10
    ensures p in Next(FORWARD[n - 1]) <==> (n < 10 && p == FORWARD[n]) || (n <= 6 && p == RollbackPending)
  {
  }

  lemma CourseIsPath(ps: seq<Phase>, b: int)
    requires IsCourseTo(ps, b)
    ensures IsPath(ps)
  {
    forall k | 0 < k < |ps|
      ensures ps[k] in Next(ps[k - 1])
    {
      if k <= b {
        NextIsForwardOrBack(k, ps[k]);
      }
    }
  }

  lemma ForwardAt(ps: seq<Phase>, j: nat)
    requires IsPath(ps) && j < |ps| && ps[j] !in {RollbackPending, RollbackComplete}
    ensures j < 10 && ps[j] == FORWARD[j]
  {
    PlaceOfPhase(ps, j);
  }

  lemma PathIsCourse(ps: seq<Phase>)
    requires IsPath(ps)
    ensures IsCourse(ps)
  {
    if b :| 0 <= b < |ps| && ps[b] == RollbackPending {
      PlaceOfPhase(ps, b);
      forall j | 0 <= j < b
        ensures j < 10 && ps[j] == FORWARD[j]
      {
        PlaceOfPhase(ps, j);
        ForwardAt(ps, j);
      }
      assert b > 0 && ps[b] in Next(ps[b - 1]);
      NextIsForwardOrBack(b, ps[b]);
      if |ps| == b + 2 {
        assert ps[b + 1] in Next(ps[b]);
      }
      assert IsCourseTo(ps, b);
    } else {
      forall j | 0 <= j < |ps|
        ensures j < 10 && ps[j] == FORWARD[j]
      {
        PlaceOfPhase(ps, j);
        ForwardAt(ps, j);
      }
      assert |ps| > 0 ==> ps[|ps| - 1] == FORWARD[|ps| - 1];
      assert IsCourseTo(ps, |ps|);
    }
  }

  /** The capacity of ten cuts off no journal: an accepted one that may go on has room. */
  lemma CapacityNeverBinds(c: Codec, id: Identity, dir: Directory, phase: Phase)
    requires Accepted(c, id, dir) && dir != map[]
    requires phase in Next(Receipts(c, id, dir)[|dir| - 1].record.phase)
    ensures |dir| < CAPACITY
  {
    AcceptedIsPath(c, id, dir);
    PlaceFrom(Phases(Receipts(c, id, dir)), |dir| - 1);
  }

  /** The chain. */

  /** Two accepted journals with the same last receipt digest are the same journal, file for file. */
  lemma SameLastReceiptSameJournal(c: Codec, id1: Identity, dir1: Directory, id2: Identity, dir2: Directory)
    requires Accepted(c, id1, dir1) && Accepted(c, id2, dir2) && dir1 != map[] && dir2 != map[]
    requires Receipts(c, id1, dir1)[|dir1| - 1].sha == Receipts(c, id2, dir2)[|dir2| - 1].sha
    ensures id1 == id2 && dir1 == dir2
  {
    assert Link(c, id1, dir1, |dir1| - 1) && Link(c, id2, dir2, |dir2| - 1);
    assert |dir1| == |dir2|;
    forall name | name in dir1 || name in dir2
      ensures name in dir1 && name in dir2 && dir1[name] == dir2[name]
    {
      NamesAreConsecutive(c, id1, dir1);
      NamesAreConsecutive(c, id2, dir2);
      SameBytes(c, id1, dir1, dir2, name.index);
    }
  }

  lemma {:induction false} SameBytes(c: Codec, id: Identity, dir1: Directory, dir2: Directory, k: nat)
    requires Accepted(c, id, dir1) && Accepted(c, id, dir2) && |dir1| == |dir2|
    requires k < |dir1| && BytesAt(dir1, |dir1| - 1) == BytesAt(dir2, |dir1| - 1)
    ensures BytesAt(dir1, k) == BytesAt(dir2, k)
    decreases |dir1| - k
  {
    if k < |dir1| - 1 {
      SameBytes(c, id, dir1, dir2, k + 1);
      assert Link(c, id, dir1, k + 1) && Link(c, id, dir2, k + 1);
    }
  }
}
