/**
The terminal commit and the cleared witness of a retirement, and what admission makes of them
(src/desktop-activation-initialization-db.js:64-121, src/desktop-activation-retirement-cleanup.js:160-169).
*/
module RetirementEvidence {
  import opened Evidence
  import opened Wrappers

  datatype State = TerminalCommittedBarred | BarriersClearedAdmissionBarred

  // Process identities are compared, never looked into.
  datatype Terminal = Terminal(state: State, operationId: string, stageId: string, installationId: string, dataId: string,
                               generation: string, plan: Digest, decision: Digest, completion: Digest, marker: Digest,
                               registration: Digest, discovery: Digest, child: string)

  // The witness repeats the commit but for its state, and names the digest of the commit.
  datatype Witness = Witness(terminal: Terminal, terminalSha: Digest)

  datatype Formats = Formats(terminal: Terminal -> Bytes, parseTerminal: Bytes -> Option<Terminal>,
                             cleared: Witness -> Bytes, parseWitness: Bytes -> Option<Witness>,
                             isOperation: string -> bool)

  const PAIR_LIMIT := 4096

  // Text written from a record reads back as that record.
  ghost predicate Faithful(f: Formats) {
    && (forall t :: f.parseTerminal(f.terminal(t)) == Some(t))
    && (forall w :: f.parseWitness(f.cleared(w)) == Some(w))
  }

  function WitnessFor(t: Terminal, sha: Digest): Witness {
    Witness(t.(state := BarriersClearedAdmissionBarred), sha)
  }

  datatype Pair = Pair(commitSha: Digest, operationId: string, registration: Digest)

  // An identity may be given in part, or not at all.
  datatype Owner = Owner(installationId: Option<string>, dataId: Option<string>)

  predicate Owns(o: Owner, t: Terminal) {
    && (o.installationId.Some? ==> o.installationId.value == t.installationId)
    && (o.dataId.Some? ==> o.dataId.value == t.dataId)
  }

  // The pair is canonical, mutually bound and bound to the owner.
  function ConsumedPair(f: Formats, commit: Bytes, cleared: Bytes, owner: Owner): Option<Pair> {
    if |commit| > PAIR_LIMIT || |cleared| > PAIR_LIMIT then None
    else
      var t, w := f.parseTerminal(commit), f.parseWitness(cleared);
      if t.None? || w.None? || f.terminal(t.value) != commit || f.cleared(w.value) != cleared
        || t.value.state != TerminalCommittedBarred || w.value.terminal.state != BarriersClearedAdmissionBarred
        || !f.isOperation(t.value.operationId) || !f.isOperation(t.value.stageId)
        || t.value.operationId == t.value.stageId || !f.isOperation(t.value.generation)
        || !Owns(owner, t.value) || !Owns(owner, w.value.terminal)
        || w.value.terminal != t.value.(state := w.value.terminal.state)
        || w.value.terminalSha != Sha256(commit)
      then None
      else Some(Pair(Sha256(commit), t.value.operationId, t.value.registration))
  }

  // Without an identity nothing is consumed; others: a plan, a decision or an entry among the activations.
  predicate HasActivationEvidence(f: Formats, commit: Option<Bytes>, cleared: Option<Bytes>, owner: Option<Owner>,
                                  others: bool)
  {
    if commit.Some? && cleared.Some? && owner.Some?
      && ConsumedPair(f, commit.value, cleared.value, owner.value).Some?
    then others
    else commit.Some? || cleared.Some? || others
  }

  /** A commit and the witness written for it are accepted for their owner exactly when the activation and its staging
      are different operations. */
  lemma WrittenPairIsConsumed(f: Formats, t: Terminal, owner: Owner)
    requires Faithful(f) && t.state == TerminalCommittedBarred && Owns(owner, t)
    requires f.isOperation(t.operationId) && f.isOperation(t.stageId) && f.isOperation(t.generation)
    requires |f.terminal(t)| <= PAIR_LIMIT
    requires |f.cleared(WitnessFor(t, Sha256(f.terminal(t))))| <= PAIR_LIMIT
    ensures ConsumedPair(f, f.terminal(t), f.cleared(WitnessFor(t, Sha256(f.terminal(t)))), owner)
      == if t.operationId == t.stageId then None
         else Some(Pair(Sha256(f.terminal(t)), t.operationId, t.registration))
  {
  }

  /** A consumed pair determines its witness, and no other witness goes with the commit. */
  lemma ConsumedWitnessIsTheOneWritten(f: Formats, commit: Bytes, cleared: Bytes, owner: Owner)
    requires ConsumedPair(f, commit, cleared, owner).Some?
    ensures f.parseTerminal(commit).Some?
    ensures cleared == f.cleared(WitnessFor(f.parseTerminal(commit).value, Sha256(commit)))
  {
  }

  lemma ConsumedByNobodyInParticular(f: Formats, commit: Bytes, cleared: Bytes, owner: Owner)
    requires ConsumedPair(f, commit, cleared, owner).Some?
    ensures ConsumedPair(f, commit, cleared, Owner(None, None)) == ConsumedPair(f, commit, cleared, owner)
  {
  }
}
