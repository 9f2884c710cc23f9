/** The accounting audit a conversion may be matched with, and the later checks on
    the evidence it leaves: internal/migration/ovm_audit.go and ovm_report.go.
    Amounts are integers: the program compares them as canonical decimal strings,
    which are equal exactly when the integers are. */
module OvmAudit {
  import opened ByteStrings

  const WORD: nat := Power256(32)

  datatype Head = Head(number: nat, hash: Hash, root: Hash)

  datatype Scan = Scan(root: Hash, codeHash: Hash, slots: nat, balances: int, supply: int, difference: int)

  datatype Totals = Totals(balance: int, supply: int, difference: int, gas: int, suicide: int, unexplained: int)

  datatype Identity = Identity(version: int, genesis: Hash, configHash: Hash, witnessHash: Hash, to: nat, toHash: Hash)

  /** An mvm audit summary. */
  datatype Summary = Summary(version: int, identity: Identity, clientVersion: string, from: nat, verifiedBlocks: nat,
                             genesis: Scan, target: Scan, totals: Totals,
                             executionVerified: bool, accountingReconciled: bool, intervalCausesFullyExplained: bool,
                             unexplainedEvents: nat, genesisDifferenceExplained: bool)

  predicate ScanAdds(s: Scan) {
    0 <= s.balances < WORD && 0 <= s.supply < WORD && s.balances - s.supply == s.difference
  }

  /** ovmAuditSummary.validate. */
  predicate Validate(a: Summary) {
    && a.version == 1 && a.identity.version == 1
    && a.clientVersion != "" && a.from == 1 && a.identity.to != 0 && a.verifiedBlocks == a.identity.to
    && NoHash() !in {a.identity.genesis, a.identity.toHash, a.identity.configHash, a.identity.witnessHash,
                     a.genesis.root, a.genesis.codeHash, a.target.root, a.target.codeHash}
    && a.executionVerified && a.accountingReconciled && a.intervalCausesFullyExplained && a.genesisDifferenceExplained
    && a.unexplainedEvents == 0 && a.totals.unexplained == 0 && a.genesis.difference == 0
    && ScanAdds(a.genesis) && ScanAdds(a.target)
    && a.target.balances - a.genesis.balances == a.totals.balance
    && a.target.supply - a.genesis.supply == a.totals.supply
    && a.target.difference - a.genesis.difference == a.totals.difference
    && a.totals.gas >= 0 && a.totals.suicide >= 0 && a.totals.gas + a.totals.suicide == a.totals.difference
  }

  /** What a valid summary establishes: from equal balances and supply at genesis, the interval
      it verified block by block explains the target's balances and supply, and the balances
      exceed the supply by the gas and the self-destructed amounts alone. */
  lemma ValidateMeans(a: Summary)
    requires Validate(a)
    ensures a.genesis.balances == a.genesis.supply >= 0
    ensures a.target.balances == a.genesis.balances + a.totals.balance
    ensures a.target.supply == a.genesis.supply + a.totals.supply
    ensures a.target.balances == a.target.supply + a.totals.gas + a.totals.suicide
    ensures a.totals.gas >= 0 && a.totals.suicide >= 0 && a.totals.unexplained == 0 && a.unexplainedEvents == 0
    ensures 0 <= a.target.supply <= a.target.balances < Power256(32)
    ensures a.from == 1 && a.verifiedBlocks == a.identity.to > 0
    ensures a.target.root != NoHash() && a.target.codeHash != NoHash() && a.identity.toHash != NoHash()
    ensures a.genesis.root != NoHash() && a.genesis.codeHash != NoHash() && a.identity.genesis != NoHash()
    ensures a.identity.configHash != NoHash() && a.identity.witnessHash != NoHash()
    ensures a.executionVerified && a.accountingReconciled && a.intervalCausesFullyExplained
            && a.genesisDifferenceExplained
  {
    hide Power256;
    assert a.target.root in {a.identity.genesis, a.identity.toHash, a.identity.configHash, a.identity.witnessHash,
                             a.genesis.root, a.genesis.codeHash, a.target.root, a.target.codeHash};
  }

  predicate MatchHead(a: Summary, head: Head) {
    && a.identity.to <= head.number
    && (a.identity.to == head.number ==> a.identity.toHash == head.hash && a.target.root == head.root)
  }

  predicate MatchAccounting(a: Summary, height: nat, code: Hash, slots: nat, balances: nat, supply: nat) {
    && a.identity.to <= height && a.target.codeHash == code && a.target.difference == balances - supply
    && (a.identity.to == height ==>
          a.target.slots == slots && a.target.balances == balances && a.target.supply == supply)
  }

  /** OVMBalanceEvidence. */
  datatype Evidence = Evidence(supply: nat, migrated: nat, remaining: nat, eoas: nat, converted: nat, retained: nat,
                          self: nat)

  datatype AuditEvidence = AuditEvidence(digest: Hash, balanceSum: nat, difference: int, auditHead: Option<Head>)

  /** conversionEvidence; None is an error. */
  function ConversionEvidence(a: Summary, digest: Hash, head: Head, b: Evidence): Option<AuditEvidence> {
    if !MatchHead(a, head) || b.migrated + b.remaining >= WORD then None
    else
      var sum := b.migrated + b.remaining;
      if sum - b.supply != a.target.difference then None
      else Some(AuditEvidence(digest, sum, sum - b.supply,
                              if a.identity.to < head.number
                                  then Some(Head(a.identity.to, a.identity.toHash, a.target.root)) else None))
  }

  /** validateOVMBalances. */
  predicate ValidateBalances(b: Evidence, audit: Option<AuditEvidence>) {
    && (audit.Some? ==>
          && audit.value.digest != NoHash() && audit.value.difference >= 0
          && audit.value.balanceSum - b.supply == audit.value.difference)
    && b.migrated + b.remaining < WORD
    && b.migrated + b.remaining == (if audit.Some? then audit.value.balanceSum else b.supply)
    && b.self <= b.remaining
  }

  /** Evidence that passes reconciles: what was made native and what remains add up to the
      supply and the audited difference, fit a word, and cover the contract's own tokens. */
  lemma BalancesMean(b: Evidence, audit: Option<AuditEvidence>)
    ensures ValidateBalances(b, audit) <==>
              && b.migrated + b.remaining == b.supply + (if audit.Some? then audit.value.difference else 0)
              && b.migrated + b.remaining < Power256(32) && b.self <= b.remaining
              && (audit.Some? ==>
                    audit.value.digest != NoHash() && audit.value.difference >= 0
                        && audit.value.balanceSum == b.migrated + b.remaining)
  {
    hide Power256;
  }

  /** The report's own check of a recorded audit head. */
  predicate ValidateAuditHead(audit: AuditEvidence, head: Head) {
    audit.auditHead.Some? ==>
      var h := audit.auditHead.value;
      0 < h.number < head.number && h.hash != NoHash() && h.root != NoHash()
  }

  /** What a completed balance transform has established about its evidence. */
  predicate Reconciled(b: Evidence, audit: Option<Summary>, height: nat, code: Hash, slots: nat) {
    && b.migrated + b.remaining < WORD && b.self <= b.remaining
    && (if audit.Some? then MatchAccounting(audit.value, height, code, slots, b.migrated + b.remaining, b.supply)
        else b.migrated + b.remaining == b.supply)
  }

  /** Every successful transform's evidence passes the later checks: with an audit
      the conversion evidence is produced exactly when the head matches, and the
      report accepts it exactly when the input's digest is not the zero hash. */
  lemma EvidencePasses(b: Evidence, audit: Option<Summary>, head: Head, code: Hash, slots: nat, digest: Hash)
    requires Reconciled(b, audit, head.number, code, slots)
    requires audit.Some? ==> Validate(audit.value)
    ensures audit.None? ==> ValidateBalances(b, None)
    ensures audit.Some? ==> (ConversionEvidence(audit.value, digest, head, b).Some? <==> MatchHead(audit.value, head))
    ensures audit.Some? && MatchHead(audit.value, head) ==>
              var e := ConversionEvidence(audit.value, digest, head, b).value;
              && (ValidateBalances(b, Some(e)) <==> digest != NoHash())
              && ValidateAuditHead(e, head)
              && e.difference >= 0 && b.self <= b.remaining
  {
    if audit.Some? {
      var a := audit.value;
      assert a.target.difference == a.totals.gas + a.totals.suicide;
      assert NoHash() != a.identity.toHash && NoHash() != a.target.root;
    }
  }
}
