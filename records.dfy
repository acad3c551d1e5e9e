/**
  The persisted shape of a support request and the key layout of the
  contract's key-value table (frontend/web/src/App.tsx): the index key
  `request_keys`, one `request_<id>` key per request, the record that
  `submitRequest` creates, and the spread-based updates that
  `matchRequest` and `resolveRequest` write back.
 */
module Records {

  datatype Option<T> = None | Some(value: T)

  /** Lifecycle state of a request. */
  datatype Status = Pending | Matched | Resolved

  /** The JSON object stored under `request_<id>`.  `status` is `None` when
      the field is missing or empty (a falsy value in the client). */
  datatype StoredRecord = StoredRecord(
    content: string,
    timestamp: int,
    author: string,
    category: string,
    status: Option<Status>,
    matchedWith: Option<string>)

  /** What `getData("request_<id>")` yields when it is non-empty: a record
      that parses, or bytes that do not, with the parser's message. */
  datatype StoredValue = Valid(rec: StoredRecord) | Undecodable(error: string)

  /** What `getData("request_keys")` yields: nothing (empty bytes), a parsed
      list of ids, or bytes that do not parse. */
  datatype IndexSlot = IndexAbsent | IndexOk(ids: seq<string>) | IndexBad

  /** The client-side view of a request (`interface SupportRequest`). */
  datatype SupportRequest = SupportRequest(
    id: string,
    encryptedContent: string,
    timestamp: int,
    author: string,
    category: string,
    status: Status,
    matchedWith: Option<string>)

  /** Wallet answer to one `setData` transaction. */
  datatype Approval = Approved | Rejected(message: string)

  /** Result of a call that may throw: a value, or the thrown error's message. */
  datatype Attempt<T> = Ok(value: T) | Threw(message: string)

  const IndexKey: string := "request_keys"
  const RecordPrefix: string := "request_"
  const ContentPrefix: string := "FHE-"
  const PeerPrefix: string := "peer-"

  function RecordKey(id: string): string
  {
    RecordPrefix + id
  }

  /** The only id whose record key is the index key is "keys". */
  lemma RecordKeyIsIndexKey(id: string)
    ensures RecordKey(id) == IndexKey <==> id == "keys"
  {
    if RecordKey(id) == IndexKey {
      assert id == RecordKey(id)[|RecordPrefix|..];
    }
  }

  /** The ids read from the index: an absent or unparsable index reads as []. */
  function KeysOf(slot: IndexSlot): seq<string>
  {
    if slot.IndexOk? then slot.ids else []
  }

  // ---------------------------------------------------------------------
  // Strings built from the clock and from Math.random()
  // ---------------------------------------------------------------------

  predicate IsDigit(c: char)
  {
    '0' <= c <= '9'
  }

  function DigitChar(d: nat): (c: char)
    requires d < 10
    ensures IsDigit(c)
  {
    "0123456789"[d]
  }

  function DigitValue(c: char): (d: nat)
    requires IsDigit(c)
    ensures d < 10
  {
    (c as int - '0' as int) as nat
  }

  /** Decimal rendering of a non-negative integer, as a template literal
      prints `Date.now()`. */
  function Decimal(n: nat): (s: string)
    ensures |s| > 0
    ensures forall i :: 0 <= i < |s| ==> IsDigit(s[i])
  {
    if n < 10 then [DigitChar(n)] else Decimal(n / 10) + [DigitChar(n % 10)]
  }

  /** Reads a string of decimal digits back as a number. */
  function ParseDecimal(s: string): nat
    requires forall i :: 0 <= i < |s| ==> IsDigit(s[i])
  {
    if s == [] then 0 else 10 * ParseDecimal(s[..|s| - 1]) + DigitValue(s[|s| - 1])
  }

  lemma {:induction false} DecimalRoundTrip(n: nat)
    ensures ParseDecimal(Decimal(n)) == n
  {
    var s := Decimal(n);
    if n < 10 {
      assert s[..0] == [];
    } else {
      assert s[..|s| - 1] == Decimal(n / 10);
      DecimalRoundTrip(n / 10);
    }
  }

  /** JavaScript's `String.prototype.substring(start, end)`: both bounds are
      clamped into [0, |s|] and swapped when given in decreasing order. */
  function Substring(s: string, start: int, end: int): (r: string)
    ensures |r| <= |s|
    ensures 0 <= start <= end ==> |r| <= end - start
    ensures 0 <= start <= end <= |s| ==> r == s[start..end]
    ensures 0 <= start <= |s| <= end ==> r == s[start..]
    ensures |s| <= start <= end ==> r == []
  {
    var a := if start < 0 then 0 else if start > |s| then |s| else start;
    var b := if end < 0 then 0 else if end > |s| then |s| else end;
    if a <= b then s[a..b] else s[b..a]
  }

  /** `${Date.now()}-${Math.random().toString(36).substring(2, 9)}`, with
      `random36` the base-36 rendering of the random number. */
  function NewRequestId(millis: nat, random36: string): (id: string)
    ensures |Decimal(millis)| < |id| <= |Decimal(millis)| + 8
    ensures id[..|Decimal(millis)|] == Decimal(millis) && id[|Decimal(millis)|] == '-'
    ensures IsDigit(id[0])
  {
    Decimal(millis) + "-" + Substring(random36, 2, 9)
  }

  /** A generated id never has the index key as its record key, so the two
      writes of `submitRequest` go to different keys. */
  lemma NewRecordKeyIsNotIndexKey(millis: nat, random36: string)
    ensures RecordKey(NewRequestId(millis, random36)) != IndexKey
  {
    var id := NewRequestId(millis, random36);
    assert IsDigit(id[0]);
    assert id != "keys" by { assert !IsDigit("keys"[0]); }
    RecordKeyIsIndexKey(id);
  }

  /** `peer-${Math.random().toString(36).substring(2, 8)}`. */
  function PeerId(random36: string): (p: string)
    ensures 5 <= |p| <= 11
    ensures p[..5] == PeerPrefix
  {
    PeerPrefix + Substring(random36, 2, 8)
  }

  // ---------------------------------------------------------------------
  // Records: creation, decoding into the view, and the two updates
  // ---------------------------------------------------------------------

  /** The record `submitRequest` writes: `encoded` is the base64 text of the
      draft, `nowMillis` the clock, `account` the connected address. */
  function NewRecord(encoded: string, nowMillis: nat, account: string, category: string): (r: StoredRecord)
    ensures |r.content| >= 4 && r.content[..4] == ContentPrefix
    ensures r.content[4..] == encoded
    ensures r.timestamp * 1000 <= nowMillis < r.timestamp * 1000 + 1000
    ensures r.author == account && r.category == category
    ensures r.status == Some(Pending) && r.matchedWith == None
  {
    StoredRecord(ContentPrefix + encoded, nowMillis / 1000, account, category, Some(Pending), None)
  }

  /** The view `loadRequests` builds from a decoded record: the id is the
      index key it came from and a missing status reads as pending. */
  function Materialize(id: string, rec: StoredRecord): (r: SupportRequest)
    ensures r.id == id
    ensures r.encryptedContent == rec.content && r.timestamp == rec.timestamp
    ensures r.author == rec.author && r.category == rec.category && r.matchedWith == rec.matchedWith
    ensures rec.status.Some? ==> r.status == rec.status.value
    ensures r.status == Pending <==> rec.status == None || rec.status == Some(Pending)
  {
    SupportRequest(id, rec.content, rec.timestamp, rec.author, rec.category,
                   if rec.status.Some? then rec.status.value else Pending, rec.matchedWith)
  }

  /** `{...requestData, status: "matched", matchedWith: peer}`. */
  function WithMatched(rec: StoredRecord, peer: string): (r: StoredRecord)
    ensures r.status == Some(Matched) && r.matchedWith == Some(peer)
    ensures r.(status := rec.status, matchedWith := rec.matchedWith) == rec
  {
    rec.(status := Some(Matched), matchedWith := Some(peer))
  }

  /** `{...requestData, status: "resolved"}`. */
  function WithResolved(rec: StoredRecord): (r: StoredRecord)
    ensures r.status == Some(Resolved)
    ensures r.(status := rec.status) == rec
  {
    rec.(status := Some(Resolved))
  }

  /** Matching changes exactly the status and the peer. */
  lemma MatchChangesOnlyStatusAndPeer(rec: StoredRecord, random36: string)
    ensures var m := WithMatched(rec, PeerId(random36));
      && m.status == Some(Matched)
      && m.matchedWith.Some? && |m.matchedWith.value| > 0 && m.matchedWith.value[..5] == PeerPrefix
      && m.content == rec.content && m.timestamp == rec.timestamp
      && m.author == rec.author && m.category == rec.category
  {
  }

  /** Resolving changes exactly the status; the peer is carried forward. */
  lemma ResolveChangesOnlyStatus(rec: StoredRecord)
    ensures var m := WithResolved(rec);
      && m.status == Some(Resolved) && m.matchedWith == rec.matchedWith
      && m.content == rec.content && m.timestamp == rec.timestamp
      && m.author == rec.author && m.category == rec.category
  {
  }

  // ---------------------------------------------------------------------
  // Overlay texts
  // ---------------------------------------------------------------------

  predicate IsPrefix(t: string, s: string)
  {
    |t| <= |s| && s[..|t|] == t
  }

  /** `t` occurs in `s` starting at position `i`. */
  predicate OccursAt(s: string, t: string, i: int)
  {
    0 <= i && i + |t| <= |s| && s[i..i + |t|] == t
  }

  /** Occurrences in `s[1..]` are the occurrences in `s` one place later. */
  lemma OccursInTail(s: string, t: string)
    requires |s| > 0
    ensures forall i :: 1 <= i ==> (OccursAt(s, t, i) <==> OccursAt(s[1..], t, i - 1))
  {
    forall i | 1 <= i
      ensures OccursAt(s, t, i) <==> OccursAt(s[1..], t, i - 1)
    {
      if i + |t| <= |s| {
        assert s[1..][i - 1..i - 1 + |t|] == s[i..i + |t|];
      }
    }
  }

  /** `s.includes(t)`: `t` occurs in `s` at some position. */
  predicate Contains(s: string, t: string)
    ensures Contains(s, t) <==> exists i :: 0 <= i <= |s| - |t| && OccursAt(s, t, i)
    ensures IsPrefix(t, s) ==> Contains(s, t)
    ensures Contains(s, t) ==> |t| <= |s|
    ensures t == [] ==> Contains(s, t)
    decreases |s|
  {
    if IsPrefix(t, s) then
      assert OccursAt(s, t, 0);
      true
    else if |s| == 0 then
      assert forall i :: 0 <= i <= |s| - |t| ==> !OccursAt(s, t, i);
      false
    else
      OccursInTail(s, t);
      assert !OccursAt(s, t, 0);
      var c := Contains(s[1..], t);
      assert c ==> exists i :: 0 <= i <= |s| - |t| && OccursAt(s, t, i) by {
        if c {
          var j :| 0 <= j <= |s[1..]| - |t| && OccursAt(s[1..], t, j);
          assert OccursAt(s, t, j + 1);
        }
      }
      assert (exists i :: 0 <= i <= |s| - |t| && OccursAt(s, t, i)) ==> c by {
        if exists i :: 0 <= i <= |s| - |t| && OccursAt(s, t, i) {
          var i :| 0 <= i <= |s| - |t| && OccursAt(s, t, i);
          assert OccursAt(s[1..], t, i - 1);
        }
      }
      c
  }

  /** `prefix + (message || "Unknown error")`. */
  function ErrorText(prefix: string, message: string): (text: string)
    ensures IsPrefix(prefix, text)
    ensures message != "" ==> text[|prefix|..] == message
    ensures message == "" ==> text[|prefix|..] == "Unknown error"
  {
    prefix + (if message == "" then "Unknown error" else message)
  }

  const UserRejectedText: string := "Transaction rejected by user"

  /** The failure text of `submitRequest`: a wallet rejection is reported as a
      cancellation, anything else as a failed submission. */
  function SubmitErrorMessage(message: string): (text: string)
    ensures text == UserRejectedText <==> Contains(message, "user rejected transaction")
    ensures text != UserRejectedText ==> text == ErrorText("Submission failed: ", message)
  {
    if Contains(message, "user rejected transaction") then UserRejectedText
    else
      var t := ErrorText("Submission failed: ", message);
      assert t[0] != UserRejectedText[0];
      t
  }
}
