/**
  The request lifecycle of frontend/web/src/App.tsx as a sequential state
  machine: the contract's key-value table (`Contract`) and the client state
  that drives it (`App`), with `loadRequests`, `submitRequest`,
  `matchRequest`, `resolveRequest` and the creation form's `handleSubmit`.

  Everything the client cannot decide itself is a parameter: the clock
  (`Date.now()`), the base-36 renderings of `Math.random()`, the base64
  encoding of the draft (which may throw), whether a signer-bound contract
  can be obtained, and the wallet's answer to each transaction.
 */
module Client {
  import opened Records
  import opened Loading
  import opened Dashboard

  /** The contract's table.  An id missing from `records` reads as empty
      bytes. */
  class Contract {
    /** The `request_keys` slot. */
    var index: IndexSlot
    /** The `request_<id>` slots, by id. */
    var records: map<string, StoredValue>
    /** A read-only contract could be obtained and `isAvailable()` holds. */
    var available: bool
    /** The keys of the accepted `setData` transactions, oldest first. */
    ghost var writes: seq<string>

    constructor(index: IndexSlot, records: map<string, StoredValue>, available: bool)
      ensures this.index == index && this.records == records && this.available == available
      ensures writes == []
    {
      this.index := index;
      this.records := records;
      this.available := available;
      writes := [];
    }

    /** `getData("request_keys")`, decoded. */
    method GetIndex() returns (slot: IndexSlot)
      ensures slot == index
    {
      slot := index;
    }

    /** `getData("request_<id>")`, decoded; `None` for empty bytes. */
    method GetRecord(id: string) returns (v: Option<StoredValue>)
      ensures id in records ==> v == Some(records[id])
      ensures id !in records ==> v == None
    {
      v := if id in records then Some(records[id]) else None;
    }

    /** `setData("request_<id>", v)`: lands only when the wallet approves. */
    method SetRecord(id: string, v: StoredValue, approval: Approval) returns (accepted: bool)
      modifies this`records, this`writes
      ensures accepted <==> approval.Approved?
      ensures accepted ==> records == old(records)[id := v] && writes == old(writes) + [RecordKey(id)]
      ensures !accepted ==> records == old(records) && writes == old(writes)
    {
      accepted := approval.Approved?;
      if accepted {
        records := records[id := v];
        writes := writes + [RecordKey(id)];
      }
    }

    /** `setData("request_keys", JSON.stringify(ids))`: lands only when the
        wallet approves. */
    method SetIndex(ids: seq<string>, approval: Approval) returns (accepted: bool)
      modifies this`index, this`writes
      ensures accepted <==> approval.Approved?
      ensures accepted ==> index == IndexOk(ids) && writes == old(writes) + [IndexKey]
      ensures !accepted ==> index == old(index) && writes == old(writes)
    {
      accepted := approval.Approved?;
      if accepted {
        index := IndexOk(ids);
        writes := writes + [IndexKey];
      }
    }
  }

  /** How an action ends: no wallet (an alert, nothing attempted), an
      incomplete form, or the text of the error or success overlay. */
  datatype Outcome = NoWallet | FormIncomplete | Failed(text: string) | Done(text: string)

  const SignerMissingText := "Failed to get contract with signer"
  const NotFoundText := "Request not found"
  const SubmittedText := "Request submitted securely with FHE encryption!"
  const MatchedText := "FHE matching completed successfully!"
  const ResolvedText := "Request marked as resolved!"
  const MatchFailedPrefix := "Matching failed: "
  const UpdateFailedPrefix := "Update failed: "

  class App {
    const contract: Contract
    /** A wallet provider is set. */
    var connected: bool
    /** The connected address, "" when there is none. */
    var account: string
    /** The list the dashboard shows. */
    var requests: seq<SupportRequest>
    /** The creation form's fields. */
    var draft: Draft

    constructor(contract: Contract)
      ensures this.contract == contract
      ensures !connected && account == "" && requests == [] && draft == EmptyDraft
    {
      this.contract := contract;
      connected := false;
      account := "";
      requests := [];
      draft := EmptyDraft;
    }

    /** A wallet was selected and reported `accounts`: the first one, or "". */
    method Connect(accounts: seq<string>)
      modifies this`connected, this`account
      ensures connected
      ensures account == if accounts == [] then "" else accounts[0]
    {
      connected := true;
      account := if accounts == [] then "" else accounts[0];
    }

    /** `onDisconnect`. */
    method Disconnect()
      modifies this`connected, this`account
      ensures !connected && account == ""
    {
      connected := false;
      account := "";
    }

    /** What `loadRequests` leaves behind: the newest-first load of the
        current table when the contract is available, otherwise the list
        as it was. */
    ghost predicate Reloaded(before: seq<SupportRequest>)
      reads this, contract
    {
      if contract.available then IsLoadOf(requests, contract.records, contract.index)
      else requests == before
    }

    /** The loop of `loadRequests` over the index ids: missing and
        undecodable records are skipped, the rest are pushed in order. */
    method CollectRequests(ids: seq<string>) returns (list: seq<SupportRequest>)
      ensures list == Collect(contract.records, ids)
    {
      list := [];
      for i := 0 to |ids|
        invariant list == Collect(contract.records, ids[..i])
      {
        var v := contract.GetRecord(ids[i]);
        assert ids[..i + 1][..i] == ids[..i];
        if v.Some? && v.value.Valid? {
          list := list + [Materialize(ids[i], v.value.rec)];
        }
      }
      assert ids[..|ids|] == ids;
    }

    method LoadRequests()
      modifies this`requests
      ensures Reloaded(old(requests))
    {
      if !contract.available {
        return;
      }
      var slot := contract.GetIndex();
      var list := CollectRequests(KeysOf(slot));
      requests := SortNewestFirst(list);
      forall t | true
        ensures AtTime(requests, t) == AtTime(list, t)
      {
        SortIsStable(list, t);
      }
    }

    /** The effect of `submitRequest`, case by case in the order the client
        meets them.  Writes land record first, index second; a rejected
        index write leaves the new record unreferenced. */
    twostate predicate SubmitEffect(encoded: Attempt<string>, signer: bool, idMillis: nat, random36: string,
                                    nowMillis: nat, recordApproval: Approval, indexApproval: Approval,
                                    outcome: Outcome)
      reads this, contract
    {
      var id := NewRequestId(idMillis, random36);
      if !connected then
        outcome == NoWallet && unchanged(this, contract)
      else if encoded.Threw? then
        outcome == Failed(SubmitErrorMessage(encoded.message)) && unchanged(this, contract)
      else if !signer then
        outcome == Failed(SubmitErrorMessage(SignerMissingText)) && unchanged(this, contract)
      else if recordApproval.Rejected? then
        outcome == Failed(SubmitErrorMessage(recordApproval.message)) && unchanged(this, contract)
      else
        var rec := NewRecord(encoded.value, nowMillis, account, old(draft).category);
        && contract.records == old(contract.records)[id := Valid(rec)]
        && if indexApproval.Rejected? then
             && outcome == Failed(SubmitErrorMessage(indexApproval.message))
             && contract.index == old(contract.index)
             && contract.writes == old(contract.writes) + [RecordKey(id)]
             && requests == old(requests) && draft == old(draft)
           else
             && outcome == Done(SubmittedText)
             && contract.index == IndexOk(KeysOf(old(contract.index)) + [id])
             && contract.writes == old(contract.writes) + [RecordKey(id), IndexKey]
             && Reloaded(old(requests)) && draft == EmptyDraft
    }

    method SubmitRequest(encoded: Attempt<string>, signer: bool, idMillis: nat, random36: string,
                         nowMillis: nat, recordApproval: Approval, indexApproval: Approval)
      returns (outcome: Outcome)
      modifies this`requests, this`draft, contract`records, contract`index, contract`writes
      ensures SubmitEffect(encoded, signer, idMillis, random36, nowMillis, recordApproval, indexApproval, outcome)
      ensures outcome.Done? && encoded.Ok? && contract.available
              && NewRequestId(idMillis, random36) !in KeysOf(old(contract.index)) ==>
        multiset(requests) == multiset(Collect(old(contract.records), KeysOf(old(contract.index))))
          + multiset{Materialize(NewRequestId(idMillis, random36),
                                 NewRecord(encoded.value, nowMillis, account, old(draft).category))}
    {
      if !connected {
        return NoWallet;
      }
      if encoded.Threw? {
        return Failed(SubmitErrorMessage(encoded.message));
      }
      if !signer {
        return Failed(SubmitErrorMessage(SignerMissingText));
      }
      var id := NewRequestId(idMillis, random36);
      var rec := NewRecord(encoded.value, nowMillis, account, draft.category);
      var ok := contract.SetRecord(id, Valid(rec), recordApproval);
      if !ok {
        return Failed(SubmitErrorMessage(recordApproval.message));
      }
      var slot := contract.GetIndex();
      var keys := KeysOf(slot) + [id];
      ok := contract.SetIndex(keys, indexApproval);
      if !ok {
        return Failed(SubmitErrorMessage(indexApproval.message));
      }
      outcome := Done(SubmittedText);
      ghost var oldRecords := old(contract.records);
      LoadRequests();
      draft := EmptyDraft;
      if id !in KeysOf(slot) {
        LoadAfterSubmit(oldRecords, KeysOf(slot), id, rec);
      }
    }

    /** `ModalCreate.handleSubmit`: an incomplete form is refused before
        anything is attempted; a complete one is submitted. */
    method HandleSubmit(encoded: Attempt<string>, signer: bool, idMillis: nat, random36: string,
                        nowMillis: nat, recordApproval: Approval, indexApproval: Approval)
      returns (outcome: Outcome)
      modifies this`requests, this`draft, contract`records, contract`index, contract`writes
      ensures !CanSubmit(old(draft)) ==> outcome == FormIncomplete && unchanged(this, contract)
      ensures CanSubmit(old(draft)) ==>
        SubmitEffect(encoded, signer, idMillis, random36, nowMillis, recordApproval, indexApproval, outcome)
    {
      if !CanSubmit(draft) {
        return FormIncomplete;
      }
      outcome := SubmitRequest(encoded, signer, idMillis, random36, nowMillis, recordApproval, indexApproval);
    }

    /** `matchRequest(id)`: a read-modify-write of `request_<id>` that sets
        the status to matched and a fresh peer id; it does not look at the
        current status. */
    method MatchRequest(id: string, signer: bool, random36: string, approval: Approval)
      returns (outcome: Outcome)
      modifies this`requests, contract`records, contract`writes
      ensures !connected ==> outcome == NoWallet && unchanged(this, contract)
      ensures connected && !signer ==>
        outcome == Failed(ErrorText(MatchFailedPrefix, SignerMissingText)) && unchanged(this, contract)
      ensures connected && signer && id !in old(contract.records) ==>
        outcome == Failed(ErrorText(MatchFailedPrefix, NotFoundText)) && unchanged(this, contract)
      ensures connected && signer && id in old(contract.records) && old(contract.records)[id].Undecodable? ==>
        outcome == Failed(ErrorText(MatchFailedPrefix, old(contract.records)[id].error)) && unchanged(this, contract)
      ensures connected && signer && id in old(contract.records) && old(contract.records)[id].Valid? && approval.Rejected? ==>
        outcome == Failed(ErrorText(MatchFailedPrefix, approval.message)) && unchanged(this, contract)
      ensures connected && signer && id in old(contract.records) && old(contract.records)[id].Valid? && approval.Approved? ==>
        && outcome == Done(MatchedText)
        && contract.records == old(contract.records)[id := Valid(WithMatched(old(contract.records)[id].rec, PeerId(random36)))]
        && contract.index == old(contract.index)
        && contract.writes == old(contract.writes) + [RecordKey(id)]
        && Reloaded(old(requests))
    {
      if !connected {
        return NoWallet;
      }
      if !signer {
        return Failed(ErrorText(MatchFailedPrefix, SignerMissingText));
      }
      var v := contract.GetRecord(id);
      if v.None? {
        return Failed(ErrorText(MatchFailedPrefix, NotFoundText));
      }
      if v.value.Undecodable? {
        return Failed(ErrorText(MatchFailedPrefix, v.value.error));
      }
      var updated := WithMatched(v.value.rec, PeerId(random36));
      var ok := contract.SetRecord(id, Valid(updated), approval);
      if !ok {
        return Failed(ErrorText(MatchFailedPrefix, approval.message));
      }
      outcome := Done(MatchedText);
      LoadRequests();
    }

    /** `resolveRequest(id)`: a read-modify-write of `request_<id>` that sets
        the status to resolved and keeps every other field; it does not look
        at the current status. */
    method ResolveRequest(id: string, signer: bool, approval: Approval)
      returns (outcome: Outcome)
      modifies this`requests, contract`records, contract`writes
      ensures !connected ==> outcome == NoWallet && unchanged(this, contract)
      ensures connected && !signer ==>
        outcome == Failed(ErrorText(UpdateFailedPrefix, SignerMissingText)) && unchanged(this, contract)
      ensures connected && signer && id !in old(contract.records) ==>
        outcome == Failed(ErrorText(UpdateFailedPrefix, NotFoundText)) && unchanged(this, contract)
      ensures connected && signer && id in old(contract.records) && old(contract.records)[id].Undecodable? ==>
        outcome == Failed(ErrorText(UpdateFailedPrefix, old(contract.records)[id].error)) && unchanged(this, contract)
      ensures connected && signer && id in old(contract.records) && old(contract.records)[id].Valid? && approval.Rejected? ==>
        outcome == Failed(ErrorText(UpdateFailedPrefix, approval.message)) && unchanged(this, contract)
      ensures connected && signer && id in old(contract.records) && old(contract.records)[id].Valid? && approval.Approved? ==>
        && outcome == Done(ResolvedText)
        && contract.records == old(contract.records)[id := Valid(WithResolved(old(contract.records)[id].rec))]
        && contract.index == old(contract.index)
        && contract.writes == old(contract.writes) + [RecordKey(id)]
        && Reloaded(old(requests))
    {
      if !connected {
        return NoWallet;
      }
      if !signer {
        return Failed(ErrorText(UpdateFailedPrefix, SignerMissingText));
      }
      var v := contract.GetRecord(id);
      if v.None? {
        return Failed(ErrorText(UpdateFailedPrefix, NotFoundText));
      }
      if v.value.Undecodable? {
        return Failed(ErrorText(UpdateFailedPrefix, v.value.error));
      }
      var updated := WithResolved(v.value.rec);
      var ok := contract.SetRecord(id, Valid(updated), approval);
      if !ok {
        return Failed(ErrorText(UpdateFailedPrefix, approval.message));
      }
      outcome := Done(ResolvedText);
      LoadRequests();
    }
  }
}
