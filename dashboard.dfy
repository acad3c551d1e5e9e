/**
  The pure helpers of the dashboard in frontend/web/src/App.tsx: the status
  counters, the case-insensitive author check, the detail toggle, the
  creation form's single-field update and its validation, and which
  lifecycle action the request card offers to the viewer.
 */
module Dashboard {
  import opened Records
  import opened Loading

  // ---------------------------------------------------------------------
  // Status counters: `requests.filter(r => r.status === s).length`
  // ---------------------------------------------------------------------

  function CountStatus(reqs: seq<SupportRequest>, s: Status): (n: nat)
    ensures n <= |reqs|
    ensures (forall k :: 0 <= k < |reqs| ==> reqs[k].status == s) ==> n == |reqs|
    ensures (forall k :: 0 <= k < |reqs| ==> reqs[k].status != s) ==> n == 0
    decreases |reqs|
  {
    if reqs == [] then 0
    else CountStatus(reqs[..|reqs| - 1], s) + (if reqs[|reqs| - 1].status == s then 1 else 0)
  }

  lemma {:induction false} CountAppend(a: seq<SupportRequest>, b: seq<SupportRequest>, s: Status)
    ensures CountStatus(a + b, s) == CountStatus(a, s) + CountStatus(b, s)
    decreases |b|
  {
    if b == [] {
      assert a + b == a;
    } else {
      assert (a + b)[..|a + b| - 1] == a + b[..|b| - 1];
      CountAppend(a, b[..|b| - 1], s);
    }
  }

  /** Every request is counted by exactly one of the three tiles. */
  lemma {:induction false} CountsPartition(reqs: seq<SupportRequest>)
    ensures CountStatus(reqs, Pending) + CountStatus(reqs, Matched) + CountStatus(reqs, Resolved) == |reqs|
    decreases |reqs|
  {
    if reqs != [] {
      CountsPartition(reqs[..|reqs| - 1]);
    }
  }

  /** The counters depend only on which requests are loaded, not on their
      order: the sort in `loadRequests` leaves them unchanged. */
  lemma {:induction false} CountsIgnoreOrder(a: seq<SupportRequest>, b: seq<SupportRequest>, s: Status)
    requires multiset(a) == multiset(b)
    ensures CountStatus(a, s) == CountStatus(b, s)
    decreases |a|
  {
    if a != [] {
      var x := a[|a| - 1];
      var a' := a[..|a| - 1];
      assert a == a' + [x];
      assert x in multiset(b);
      var k :| 0 <= k < |b| && b[k] == x;
      var b' := b[..k] + b[k + 1..];
      assert b == b[..k] + [x] + b[k + 1..];
      assert multiset(a) == multiset(a') + multiset{x};
      assert multiset(b) == multiset(b[..k]) + multiset{x} + multiset(b[k + 1..]);
      assert multiset(b') == multiset(b[..k]) + multiset(b[k + 1..]);
      assert multiset(a') == multiset(a) - multiset{x};
      assert multiset(b') == multiset(b) - multiset{x};
      CountsIgnoreOrder(a', b', s);
      CountAppend(a', [x], s);
      CountAppend(b[..k], [x], s);
      CountAppend(b[..k] + [x], b[k + 1..], s);
      CountAppend(b[..k], b[k + 1..], s);
      assert [x][..0] == [];
    }
  }

  /** After a load, each counter equals the number of decodable index
      entries with that status. */
  lemma CountsOfLoad(list: seq<SupportRequest>, records: map<string, StoredValue>, index: IndexSlot, s: Status)
    requires IsLoadOf(list, records, index)
    ensures CountStatus(list, s) == CountStatus(Collect(records, KeysOf(index)), s)
  {
    CountsIgnoreOrder(list, Collect(records, KeysOf(index)), s);
  }

  // ---------------------------------------------------------------------
  // isAuthor: `account.toLowerCase() === address.toLowerCase()`
  // ---------------------------------------------------------------------

  function LowerChar(c: char): (d: char)
    ensures !('A' <= d <= 'Z')
    ensures !('A' <= c <= 'Z') ==> d == c
    ensures 'A' <= c <= 'Z' ==> d as int == c as int + 32
  {
    if 'A' <= c <= 'Z' then (c as int + 32) as char else c
  }

  function Lower(s: string): (t: string)
    ensures |t| == |s|
    ensures forall i :: 0 <= i < |s| ==> t[i] == LowerChar(s[i])
  {
    seq(|s|, i requires 0 <= i < |s| => LowerChar(s[i]))
  }

  predicate IsAuthor(account: string, address: string)
    ensures account == address ==> IsAuthor(account, address)
    ensures IsAuthor(account, address) ==> |account| == |address|
  {
    Lower(account) == Lower(address)
  }

  /** Two addresses name the same author exactly when they agree letter by
      letter up to case. */
  lemma IsAuthorIgnoresCase(account: string, address: string)
    ensures IsAuthor(account, address) <==>
      |account| == |address| && forall i :: 0 <= i < |account| ==> LowerChar(account[i]) == LowerChar(address[i])
  {
    if |account| == |address| && forall i :: 0 <= i < |account| ==> LowerChar(account[i]) == LowerChar(address[i]) {
      assert Lower(account) == Lower(address);
    }
  }

  // ---------------------------------------------------------------------
  // toggleRequestDetails
  // ---------------------------------------------------------------------

  /** `expandedRequest === id ? null : id`: at most one card is expanded. */
  function ToggleDetails(expanded: Option<string>, id: string): (r: Option<string>)
    ensures r == None <==> expanded == Some(id)
    ensures r != None ==> r == Some(id)
  {
    if expanded == Some(id) then None else Some(id)
  }

  // ---------------------------------------------------------------------
  // The creation form
  // ---------------------------------------------------------------------

  datatype Field = Category | Content | AnonymousId

  /** `newRequestData`: the three form fields. */
  datatype Draft = Draft(category: string, content: string, anonymousId: string)

  const EmptyDraft := Draft("", "", "")

  function Get(d: Draft, f: Field): string
  {
    match f
    case Category => d.category
    case Content => d.content
    case AnonymousId => d.anonymousId
  }

  /** `handleChange`: `{...requestData, [name]: value}`. */
  function WithField(d: Draft, f: Field, value: string): (r: Draft)
    ensures Get(r, f) == value
    ensures forall g :: g != f ==> Get(r, g) == Get(d, g)
  {
    match f
    case Category => d.(category := value)
    case Content => d.(content := value)
    case AnonymousId => d.(anonymousId := value)
  }

  /** A later change of the same field overrides an earlier one; changes of
      different fields commute. */
  lemma WithFieldLastWriteWins(d: Draft, f: Field, g: Field, v: string, w: string)
    ensures WithField(WithField(d, f, v), f, w) == WithField(d, f, w)
    ensures f != g ==> WithField(WithField(d, f, v), g, w) == WithField(WithField(d, g, w), f, v)
  {
  }

  /** `handleSubmit`: both required fields are non-empty. */
  predicate CanSubmit(d: Draft)
    ensures CanSubmit(d) ==> |Get(d, Category)| > 0 && |Get(d, Content)| > 0
    ensures d.category == "" || d.content == "" ==> !CanSubmit(d)
  {
    d.category != "" && d.content != ""
  }

  /** Filling both required fields is enough, whatever the order of edits. */
  lemma FilledDraftCanSubmit(d: Draft, category: string, content: string)
    requires category != "" && content != ""
    ensures CanSubmit(WithField(WithField(d, Category, category), Content, content))
    ensures !CanSubmit(WithField(d, Content, ""))
  {
  }

  // ---------------------------------------------------------------------
  // The actions a request card offers, and the lifecycle they drive
  // ---------------------------------------------------------------------

  /** "Find Match": the viewer wrote the request and it is pending. */
  predicate OffersFindMatch(viewer: string, r: SupportRequest)
    ensures OffersFindMatch(viewer, r) <==>
      && r.status == Pending && |viewer| == |r.author|
      && forall i :: 0 <= i < |viewer| ==> LowerChar(viewer[i]) == LowerChar(r.author[i])
    ensures viewer == r.author && r.status == Pending ==> OffersFindMatch(viewer, r)
  {
    IsAuthorIgnoresCase(viewer, r.author);
    IsAuthor(viewer, r.author) && r.status == Pending
  }

  /** "Mark Resolved": the viewer wrote the request and it is matched. */
  predicate OffersMarkResolved(viewer: string, r: SupportRequest)
    ensures OffersMarkResolved(viewer, r) <==>
      && r.status == Matched && |viewer| == |r.author|
      && forall i :: 0 <= i < |viewer| ==> LowerChar(viewer[i]) == LowerChar(r.author[i])
    ensures OffersMarkResolved(viewer, r) ==> !OffersFindMatch(viewer, r)
    ensures viewer == r.author && r.status == Matched ==> OffersMarkResolved(viewer, r)
  {
    IsAuthorIgnoresCase(viewer, r.author);
    IsAuthor(viewer, r.author) && r.status == Matched
  }

  function Rank(s: Status): nat
  {
    match s
    case Pending => 0
    case Matched => 1
    case Resolved => 2
  }

  /** A peer is recorded exactly when the request is matched or resolved. */
  predicate Paired(r: SupportRequest)
  {
    r.matchedWith.Some? <==> r.status != Pending
  }

  /** A freshly submitted request is pending, has no peer and is offered
      "Find Match" to its author, and to no one else. */
  lemma SubmittedIsPendingAndPaired(id: string, encoded: string, nowMillis: nat, account: string, category: string, viewer: string)
    ensures var r := Materialize(id, NewRecord(encoded, nowMillis, account, category));
      r.status == Pending && Paired(r) && (OffersFindMatch(viewer, r) <==> IsAuthor(viewer, account))
  {
  }

  /** Through the actions the card offers, a request only moves forward,
      first to matched with a peer, then to resolved keeping that peer, and
      stays paired. */
  lemma {:induction false} OfferedActionsAdvance(viewer: string, id: string, rec: StoredRecord, random36: string)
    ensures var r := Materialize(id, rec);
      var m := Materialize(id, WithMatched(rec, PeerId(random36)));
      OffersFindMatch(viewer, r) ==>
        Rank(m.status) == Rank(r.status) + 1 && Paired(m) && m.matchedWith == Some(PeerId(random36))
    ensures var r := Materialize(id, rec);
      var v := Materialize(id, WithResolved(rec));
      OffersMarkResolved(viewer, r) && Paired(r) ==>
        Rank(v.status) == Rank(r.status) + 1 && Paired(v) && v.matchedWith == r.matchedWith
  {
    MatchChangesOnlyStatusAndPeer(rec, random36);
    ResolveChangesOnlyStatus(rec);
  }

  /** A resolved request is offered no action, so its status is final as far
      as the card goes. */
  lemma ResolvedIsFinal(viewer: string, r: SupportRequest)
    requires r.status == Resolved
    ensures !OffersFindMatch(viewer, r) && !OffersMarkResolved(viewer, r)
  {
  }

  /** `matchRequest` itself does not look at the status: called on a resolved
      record it moves it back to matched and replaces the peer. */
  lemma MatchOnResolvedMovesBack(rec: StoredRecord, random36: string)
    requires rec.status == Some(Resolved)
    ensures Materialize("", WithMatched(rec, PeerId(random36))).status == Matched
    ensures Materialize("", WithMatched(rec, PeerId(random36))).matchedWith == Some(PeerId(random36))
  {
  }

  /** `resolveRequest` itself does not look at the status: called on a pending
      record with no peer it yields a resolved request without a peer. */
  lemma ResolveOnPendingLeavesUnpaired(id: string, rec: StoredRecord)
    requires rec.status == Some(Pending) && rec.matchedWith == None
    ensures !Paired(Materialize(id, WithResolved(rec)))
  {
  }
}
