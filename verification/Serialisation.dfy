/**
Texts that end themselves. They stand in for the serialised records, and show that what is asked of those can be met: text
is read back, no text begins another, and a final line feed may be lost.
*/
module Serialisation {
  import opened Evidence
  import opened Wrappers

  function Unary(n: nat): Bytes {
    if n == 0 then [0] else [1] + Unary(n - 1)
  }

  function Chars(s: string): Bytes {
    if s == "" then [0] else [1] + (Unary(s[0] as int) + Chars(s[1..]))
  }

  function Raw(b: Bytes): Bytes {
    if b == [] then [0] else [1, b[0]] + Raw(b[1..])
  }

  function Maybe(d: Option<Digest>): Bytes {
    if d.None? then [0] else [1] + Raw(d.value.bytes)
  }

  // The first byte decides whether a text goes on.
  lemma FirstByte(a: byte, x: Bytes, s: Bytes)
    ensures ([a] + x) + s == [a] + (x + s)
  {
  }

  lemma NothingBefore(x: Bytes, s: Bytes)
    requires x == []
    ensures x + s == s
  {
  }

  lemma Regroup(a: Bytes, b: Bytes, c: Bytes)
    ensures (a + b) + c == a + (b + c)
  {
  }

  lemma SameRest(a: byte, b: byte, x: Bytes, y: Bytes)
    requires [a] + x == [b] + y
    ensures a == b && x == y
  {
    assert ([a] + x)[0] == a && ([b] + y)[0] == b;
    assert ([a] + x)[1..] == x && ([b] + y)[1..] == y;
  }

  lemma {:induction false} UnaryHeads(n: nat, m: nat, s: Bytes, t: Bytes)
    requires Unary(n) + s == Unary(m) + t
    ensures n == m && s == t
  {
    var x: Bytes, y: Bytes := if n == 0 then [] else Unary(n - 1), if m == 0 then [] else Unary(m - 1);
    var a: byte, b: byte := if n == 0 then 0 else 1, if m == 0 then 0 else 1;
    assert Unary(n) == [a] + x && Unary(m) == [b] + y;
    FirstByte(a, x, s);
    FirstByte(b, y, t);
    SameRest(a, b, x + s, y + t);
    if a == 0 {
      NothingBefore(x, s);
      NothingBefore(y, t);
    } else {
      UnaryHeads(n - 1, m - 1, s, t);
    }
  }

  lemma {:induction false} CharsHeads(p: string, q: string, s: Bytes, t: Bytes)
    requires Chars(p) + s == Chars(q) + t
    ensures p == q && s == t
  {
    hide Unary;
    var x: Bytes, y: Bytes := if p == "" then [] else Unary(p[0] as int) + Chars(p[1..]),
                              if q == "" then [] else Unary(q[0] as int) + Chars(q[1..]);
    var a: byte, b: byte := if p == "" then 0 else 1, if q == "" then 0 else 1;
    assert Chars(p) == [a] + x && Chars(q) == [b] + y;
    FirstByte(a, x, s);
    FirstByte(b, y, t);
    SameRest(a, b, x + s, y + t);
    if a == 0 {
      NothingBefore(x, s);
      NothingBefore(y, t);
    } else {
      Regroup(Unary(p[0] as int), Chars(p[1..]), s);
      Regroup(Unary(q[0] as int), Chars(q[1..]), t);
      UnaryHeads(p[0] as int, q[0] as int, Chars(p[1..]) + s, Chars(q[1..]) + t);
      CharsHeads(p[1..], q[1..], s, t);
      assert p == [p[0]] + p[1..] && q == [q[0]] + q[1..];
    }
  }

  lemma {:induction false} RawHeads(p: Bytes, q: Bytes, s: Bytes, t: Bytes)
    requires Raw(p) + s == Raw(q) + t
    ensures p == q && s == t
  {
    var x: Bytes, y: Bytes := if p == [] then [] else [p[0]] + Raw(p[1..]), if q == [] then [] else [q[0]] + Raw(q[1..]);
    var a: byte, b: byte := if p == [] then 0 else 1, if q == [] then 0 else 1;
    assert Raw(p) == [a] + x && Raw(q) == [b] + y;
    FirstByte(a, x, s);
    FirstByte(b, y, t);
    SameRest(a, b, x + s, y + t);
    if a == 0 {
      NothingBefore(x, s);
      NothingBefore(y, t);
    } else {
      FirstByte(p[0], Raw(p[1..]), s);
      FirstByte(q[0], Raw(q[1..]), t);
      SameRest(p[0], q[0], Raw(p[1..]) + s, Raw(q[1..]) + t);
      RawHeads(p[1..], q[1..], s, t);
      assert p == [p[0]] + p[1..] && q == [q[0]] + q[1..];
    }
  }

  lemma MaybeHeads(p: Option<Digest>, q: Option<Digest>, s: Bytes, t: Bytes)
    requires Maybe(p) + s == Maybe(q) + t
    ensures p == q && s == t
  {
    hide Raw;
    var x: Bytes, y: Bytes := if p.None? then [] else Raw(p.value.bytes), if q.None? then [] else Raw(q.value.bytes);
    var a: byte, b: byte := if p.None? then 0 else 1, if q.None? then 0 else 1;
    assert Maybe(p) == [a] + x && Maybe(q) == [b] + y;
    FirstByte(a, x, s);
    FirstByte(b, y, t);
    SameRest(a, b, x + s, y + t);
    if a == 0 {
      NothingBefore(x, s);
      NothingBefore(y, t);
    } else {
      RawHeads(p.value.bytes, q.value.bytes, s, t);
    }
  }

  // Several strings, and several digests, one after another.
  function Strings(ss: seq<string>): Bytes {
    if ss == [] then [] else Chars(ss[0]) + Strings(ss[1..])
  }

  function Digests(ds: seq<Digest>): Bytes {
    if ds == [] then [] else Raw(ds[0].bytes) + Digests(ds[1..])
  }

  lemma {:induction false} StringsHeads(p: seq<string>, q: seq<string>, s: Bytes, t: Bytes)
    requires |p| == |q| && Strings(p) + s == Strings(q) + t
    ensures p == q && s == t
  {
    hide Chars;
    if p == [] {
      assert Strings(p) + s == s && Strings(q) + t == t;
    } else {
      Regroup(Chars(p[0]), Strings(p[1..]), s);
      Regroup(Chars(q[0]), Strings(q[1..]), t);
      CharsHeads(p[0], q[0], Strings(p[1..]) + s, Strings(q[1..]) + t);
      StringsHeads(p[1..], q[1..], s, t);
      assert p == [p[0]] + p[1..] && q == [q[0]] + q[1..];
    }
  }

  lemma {:induction false} DigestsHeads(p: seq<Digest>, q: seq<Digest>, s: Bytes, t: Bytes)
    requires |p| == |q| && Digests(p) + s == Digests(q) + t
    ensures p == q && s == t
  {
    hide Raw;
    if p == [] {
      assert Digests(p) + s == s && Digests(q) + t == t;
    } else {
      Regroup(Raw(p[0].bytes), Digests(p[1..]), s);
      Regroup(Raw(q[0].bytes), Digests(q[1..]), t);
      RawHeads(p[0].bytes, q[0].bytes, Digests(p[1..]) + s, Digests(q[1..]) + t);
      DigestsHeads(p[1..], q[1..], s, t);
      assert p == [p[0]] + p[1..] && q == [q[0]] + q[1..];
    }
  }
}

/** A codec of journal receipts: a body and a line feed, read with or without the line feed. */
module ReceiptCodec {
  import opened ActivationJournal
  import opened Evidence
  import opened Serialisation
  import opened Wrappers

  function Code(p: Phase): nat {
    match p
    case Prepared => 0
    case TrialStarting => 1
    case TrialRunning => 2
    case TrialHealthy => 3
    case RegistrationCas => 4
    case DiscoveryPublished => 5
    case PrivateTicketVerified => 6
    case PromotedAttachVerified => 7
    case Completed => 8
    case BarrierCleared => 9
    case RollbackPending => 10
    case RollbackComplete => 11
  }

  function Names(r: Record): seq<string> {
    [r.identity.operationId, r.identity.installationId, r.identity.dataId]
  }

  function Body(r: Record): Bytes {
    Strings(Names(r)) + (Unary(r.sequence) + (Unary(Code(r.phase)) + (Maybe(r.previous) + Raw(r.evidence.bytes))))
  }

  const LINE_FEED: Bytes := [10]

  function Text(r: Record): Bytes {
    Body(r) + LINE_FEED
  }

  lemma BodyHeads(a: Record, b: Record, s: Bytes, t: Bytes)
    requires Body(a) + s == Body(b) + t
    ensures a == b && s == t
  {
    hide Strings, Unary, Maybe, Raw;
    var a4, b4 := Raw(a.evidence.bytes), Raw(b.evidence.bytes);
    var a3, b3 := Maybe(a.previous) + a4, Maybe(b.previous) + b4;
    var a2, b2 := Unary(Code(a.phase)) + a3, Unary(Code(b.phase)) + b3;
    var a1, b1 := Unary(a.sequence) + a2, Unary(b.sequence) + b2;
    Regroup(Strings(Names(a)), a1, s);
    Regroup(Strings(Names(b)), b1, t);
    StringsHeads(Names(a), Names(b), a1 + s, b1 + t);
    Regroup(Unary(a.sequence), a2, s);
    Regroup(Unary(b.sequence), b2, t);
    UnaryHeads(a.sequence, b.sequence, a2 + s, b2 + t);
    Regroup(Unary(Code(a.phase)), a3, s);
    Regroup(Unary(Code(b.phase)), b3, t);
    UnaryHeads(Code(a.phase), Code(b.phase), a3 + s, b3 + t);
    Regroup(Maybe(a.previous), a4, s);
    Regroup(Maybe(b.previous), b4, t);
    MaybeHeads(a.previous, b.previous, a4 + s, b4 + t);
    RawHeads(a.evidence.bytes, b.evidence.bytes, s, t);
    SameIdentity(a, b);
  }

  lemma SameIdentity(a: Record, b: Record)
    requires Names(a) == Names(b)
    ensures a.identity == b.identity
  {
    assert Names(a)[0] == Names(b)[0] && Names(a)[1] == Names(b)[1] && Names(a)[2] == Names(b)[2];
  }

  predicate Says(text: Bytes, r: Record) {
    text == Body(r) || text == Text(r)
  }

  ghost function Read(text: Bytes): (r: Option<Record>)
    ensures r.Some? <==> exists one :: Says(text, one)
    ensures r.Some? ==> Says(text, r.value)
  {
    if exists one :: Says(text, one) then
      var one :| Says(text, one);
      Some(one)
    else None
  }

  // A text that begins another's says the same record.
  lemma SaysOne(text: Bytes, rest: Bytes, a: Record, b: Record)
    requires Says(text, a) && text + rest == Text(b)
    ensures a == b
  {
    hide Body;
    if text == Body(a) {
      BodyHeads(a, b, rest, LINE_FEED);
    } else {
      Regroup(Body(a), LINE_FEED, rest);
      BodyHeads(a, b, LINE_FEED + rest, LINE_FEED);
    }
  }

  ghost function TheCodec(): Codec {
    Codec(Text, Read)
  }

  /** What is asked of the codec can be met. */
  lemma CodecIsFaithful()
    ensures Faithful(TheCodec())
  {
    hide Text, Body;
    var c := TheCodec();
    forall r: Record
      ensures Readable(c, r)
    {
      ReadsBack(r);
    }
  }

  lemma ReadsBack(r: Record)
    ensures Readable(TheCodec(), r)
  {
    hide Body;
    var c := TheCodec();
    assert Says(Text(r), r);
    var none: Bytes := [];
    assert Text(r) + none == Text(r);
    SaysOne(Text(r), none, Read(Text(r)).value, r);
    forall n: nat | n <= |c.encode(r)|
      ensures CutShort(c, r, n)
    {
      var text, rest := Text(r)[..n], Text(r)[n..];
      assert text + rest == Text(r);
      if Read(text).Some? {
        SaysOne(text, rest, Read(text).value, r);
      }
    }
  }

  /** Torn before its line feed, a receipt that fits is accepted and says what was being recorded. */
  lemma LineFeedMayBeLost(id: Identity, dir: Directory, phase: Phase, evidence: Digest)
    requires Appendable(TheCodec(), id, dir, phase) && Fits(TheCodec(), RecordFor(TheCodec(), id, dir, phase, evidence))
    ensures var c, r := TheCodec(), RecordFor(TheCodec(), id, dir, phase, evidence);
      var torn := WithFile(c, dir, r, |c.encode(r)| - 1);
      Accepted(c, id, torn) && Receipts(c, id, torn) == Receipts(c, id, dir) + [Receipt(r, Sha256(Body(r)))]
  {
    var c := TheCodec();
    var r := RecordFor(c, id, dir, phase, evidence);
    CodecIsFaithful();
    assert Text(r)[..|Text(r)| - 1] == Body(r);
    assert Says(Body(r), r);
    BodyIsNotEmpty(r);
    TornAppendTellsNoLie(c, id, dir, phase, evidence, |c.encode(r)| - 1);
  }

  lemma BodyIsNotEmpty(r: Record)
    ensures Body(r) != []
  {
    assert Unary(r.sequence) != [];
  }

  /** The first receipt of an operation is an instance. */
  lemma FirstReceiptMayLoseItsLineFeed()
    ensures var c, id := TheCodec(), Identity("", "", "");
      var r := RecordFor(c, id, map[], Prepared, Sha256([]));
      Appendable(c, id, map[], Prepared) && Fits(c, r) && Accepted(c, id, WithFile(c, map[], r, |c.encode(r)| - 1))
  {
    var c, id := TheCodec(), Identity("", "", "");
    var r := RecordFor(c, id, map[], Prepared, Sha256([]));
    EmptyNames(r);
    LineFeedMayBeLost(id, map[], Prepared, Sha256([]));
  }

  lemma EmptyNames(r: Record)
    requires r.identity == Identity("", "", "") && r.sequence == 0 && r.phase == Prepared
    requires r.previous.None? && r.evidence == Sha256([])
    ensures |Text(r)| == 8
  {
    assert Names(r)[1..] == ["", ""] && ["", ""][1..] == [""] && [""][1..] == [];
    assert Strings([""]) == [0] + Strings([]);
    assert Strings(["", ""]) == [0] + Strings([""]);
    assert Strings(Names(r)) == [0] + Strings(["", ""]);
  }
}

/** Forms of the terminal commit and its witness. */
module RetirementCodec {
  import opened Evidence
  import opened RetirementEvidence
  import opened RetirementRuns
  import opened Serialisation
  import opened Wrappers

  function StateCode(s: State): nat {
    if s.TerminalCommittedBarred? then 0 else 1
  }

  function Names(t: Terminal): seq<string> {
    [t.operationId, t.stageId, t.installationId, t.dataId, t.generation, t.child]
  }

  function Shas(t: Terminal): seq<Digest> {
    [t.plan, t.decision, t.completion, t.marker, t.registration, t.discovery]
  }

  function CommitForm(t: Terminal): Bytes {
    Unary(StateCode(t.state)) + (Strings(Names(t)) + Digests(Shas(t)))
  }

  function WitnessForm(w: Witness): Bytes {
    CommitForm(w.terminal) + Raw(w.terminalSha.bytes)
  }

  lemma CommitHeads(a: Terminal, b: Terminal, s: Bytes, t: Bytes)
    requires CommitForm(a) + s == CommitForm(b) + t
    ensures a == b && s == t
  {
    hide Unary, Strings, Digests;
    var a1, b1 := Strings(Names(a)) + Digests(Shas(a)), Strings(Names(b)) + Digests(Shas(b));
    Regroup(Unary(StateCode(a.state)), a1, s);
    Regroup(Unary(StateCode(b.state)), b1, t);
    UnaryHeads(StateCode(a.state), StateCode(b.state), a1 + s, b1 + t);
    Regroup(Strings(Names(a)), Digests(Shas(a)), s);
    Regroup(Strings(Names(b)), Digests(Shas(b)), t);
    StringsHeads(Names(a), Names(b), Digests(Shas(a)) + s, Digests(Shas(b)) + t);
    DigestsHeads(Shas(a), Shas(b), s, t);
    SameTerminal(a, b);
  }

  lemma SameTerminal(a: Terminal, b: Terminal)
    requires a.state == b.state && Names(a) == Names(b) && Shas(a) == Shas(b)
    ensures a == b
  {
    assert forall k :: 0 <= k < 6 ==> Names(a)[k] == Names(b)[k] && Shas(a)[k] == Shas(b)[k];
    assert Names(a)[0] == Names(b)[0] && Names(a)[1] == Names(b)[1] && Names(a)[2] == Names(b)[2];
    assert Names(a)[3] == Names(b)[3] && Names(a)[4] == Names(b)[4] && Names(a)[5] == Names(b)[5];
    assert Shas(a)[0] == Shas(b)[0] && Shas(a)[1] == Shas(b)[1] && Shas(a)[2] == Shas(b)[2];
    assert Shas(a)[3] == Shas(b)[3] && Shas(a)[4] == Shas(b)[4] && Shas(a)[5] == Shas(b)[5];
  }

  lemma WitnessHeads(a: Witness, b: Witness)
    requires WitnessForm(a) == WitnessForm(b)
    ensures a == b
  {
    hide CommitForm, Raw;
    CommitHeads(a.terminal, b.terminal, Raw(a.terminalSha.bytes), Raw(b.terminalSha.bytes));
    var none: Bytes := [];
    assert Raw(a.terminalSha.bytes) + none == Raw(b.terminalSha.bytes) + none;
    RawHeads(a.terminalSha.bytes, b.terminalSha.bytes, none, none);
  }

  ghost function ReadCommit(b: Bytes): (t: Option<Terminal>)
    ensures t.Some? <==> exists one :: CommitForm(one) == b
    ensures t.Some? ==> CommitForm(t.value) == b
  {
    if exists one :: CommitForm(one) == b then
      var one :| CommitForm(one) == b;
      Some(one)
    else None
  }

  ghost function ReadWitness(b: Bytes): (w: Option<Witness>)
    ensures w.Some? <==> exists one :: WitnessForm(one) == b
    ensures w.Some? ==> WitnessForm(w.value) == b
  {
    if exists one :: WitnessForm(one) == b then
      var one :| WitnessForm(one) == b;
      Some(one)
    else None
  }

  ghost function TheFormats(): Formats {
    Formats(CommitForm, ReadCommit, WitnessForm, ReadWitness, (s: string) => s != "")
  }

  /** What is asked of the two forms can be met. */
  lemma FormatsAreFaithful()
    ensures Faithful(TheFormats()) && PrefixFree(TheFormats())
  {
    hide CommitForm, WitnessForm;
    var none: Bytes := [];
    forall t: Terminal
      ensures ReadCommit(CommitForm(t)) == Some(t)
    {
      assert CommitForm(t) + none == CommitForm(ReadCommit(CommitForm(t)).value) + none;
      CommitHeads(t, ReadCommit(CommitForm(t)).value, none, none);
    }
    forall w: Witness
      ensures ReadWitness(WitnessForm(w)) == Some(w)
    {
      WitnessHeads(w, ReadWitness(WitnessForm(w)).value);
    }
    forall t: Terminal, u: Terminal | IsPart(CommitForm(t), CommitForm(u))
      ensures t == u
    {
      var rest := CommitForm(u)[|CommitForm(t)|..];
      assert CommitForm(t) + rest == CommitForm(u) + none;
      CommitHeads(t, u, rest, none);
    }
  }
}
