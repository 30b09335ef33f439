/**
 * The cursor of a query, as values: its state, the messages it puts on the
 * wire (OP_QUERY, OP_GET_MORE and OP_KILL_CURSORS of the MongoDB Wire
 * Protocol), and what one enumeration does, given the replies the server
 * returns in order. `Cursors.Cursor` is proved to behave exactly as
 * `Enumerate` and `AfterDispose` say; the lemmas here say what that means.
 */
module CursorSpec {
  import opened Bytes
  import opened Options
  import opened Bson

  const INT64_MIN: int := -0x8000_0000_0000_0000
  const INT64_MAX: int := 0x7FFF_FFFF_FFFF_FFFF

  type int64 = x: int | INT64_MIN <= x <= INT64_MAX

  /** A reply: the server's cursor id (0 once it holds no more) and the batch, which may be null. */
  datatype Reply = Reply(cursorId: int64, documents: Option<seq<Doc>>)

  /** The messages a cursor sends. */
  datatype Message =
    | Query(ns: string, numberToSkip: int32, numberToReturn: int32, query: Doc, fieldSelector: Option<Doc>)
    | GetMore(ns: string, cursorId: int64, numberToReturn: int32)
    | KillCursors(cursorId: int64)

  /**
   * What a cursor holds: the namespace, the selector, the field selector, the
   * sort order (present once `Sort` was called), limit and skip, the server
   * cursor id (-1 before the first reply) and the latest reply.
   */
  datatype CursorState = CursorState(
    ns: string, spec: Doc, fields: Option<Doc>, orderBy: Option<Doc>,
    limit: int32, skip: int32, id: int64, reply: Option<Reply>)

  /**
   * The result of driving a cursor: its new state, the replies not yet used,
   * the messages sent, the documents yielded, and whether the enumeration
   * ended in an exception (the transport had no reply, or a batch was null
   * where the loop walks it).
   */
  datatype Outcome = Outcome(state: CursorState, script: seq<Reply>, sent: seq<Message>, yielded: seq<Doc>, faulted: bool)

  const QUERY: seq<byte> := [0x71, 0x75, 0x65, 0x72, 0x79]               // "query"
  const ORDERBY: seq<byte> := [0x6F, 0x72, 0x64, 0x65, 0x72, 0x62, 0x79]   // "orderby"

  // ---------------------------------------------------------------- construction, sort, query

  /** The new cursor: id -1, no reply, no sort; a missing selector becomes the empty document. */
  function NewCursor(ns: string, spec: Option<Doc>, limit: int32, skip: int32, fields: Option<Doc>): (s: CursorState)
    ensures s.id == -1 && s.reply.None? && s.orderBy.None?
    ensures s.limit == limit && s.skip == skip && s.ns == ns && s.fields == fields
    ensures s.spec == if spec.Some? then spec.value else []
  {
    CursorState(ns, spec.GetOr([]), fields, None, limit, skip, -1, None)
  }

  /** The document sent as the query: the selector, or `{query: spec, orderby: order}` once sorted. */
  function EffectiveQuery(s: CursorState): Doc
  {
    match s.orderBy
    case None => s.spec
    case Some(o) => [Element(QUERY, Document(s.spec)), Element(ORDERBY, Document(o))]
  }

  /** The OP_QUERY a cursor sends: limit and skip as they stand, the effective query, the fields. */
  function QueryMessage(s: CursorState): (m: Message)
    ensures m.Query? && m.ns == s.ns && m.numberToSkip == s.skip && m.numberToReturn == s.limit
    ensures m.query == EffectiveQuery(s) && m.fieldSelector == s.fields
  {
    Query(s.ns, s.skip, s.limit, EffectiveQuery(s), s.fields)
  }

  /** A C# `int` wraps modulo 2^32 (the arithmetic is unchecked). */
  function Wrap32(x: int): (r: int32)
    ensures INT32_MIN <= x <= INT32_MAX ==> r == x
  {
    (x - INT32_MIN) % TWO_32 + INT32_MIN
  }

  /** `if (Limit < 0) Limit = Limit * -1`. */
  function NormalizedLimit(limit: int32): int32
  {
    if limit < 0 then Wrap32(limit * -1) else limit
  }

  /** The state after the reply to the query: reply and id taken from it, limit normalised. */
  function AfterQuery(s: CursorState, r: Reply): CursorState
  {
    s.(reply := Some(r), id := r.cursorId, limit := NormalizedLimit(s.limit))
  }

  /** The state after the reply to a get-more: reply and id taken from it. */
  function AfterGetMore(s: CursorState, r: Reply): CursorState
  {
    s.(reply := Some(r), id := r.cursorId)
  }

  // ---------------------------------------------------------------- enumeration

  /** The loop may go on yielding while the limit is 0 or the count is below it. */
  predicate UnderLimit(limit: int32, count: nat)
  {
    limit == 0 || count < limit
  }

  /** The consumer still wants a document after `count` of them. */
  predicate Wants(want: Option<nat>, count: nat)
  {
    want.None? || count < want.value
  }

  /**
   * The enumeration loop from the middle of a batch: `batch` is what is left
   * of the current batch, `count` the documents yielded so far, `want` how
   * many the consumer takes before it stops pulling (None: all of them).
   * Over the limit the loop breaks off at once (`yield break`).
   */
  function Loop(s: CursorState, batch: seq<Doc>, script: seq<Reply>, want: Option<nat>, count: nat): Outcome
    requires Wants(want, count)
    decreases |script|, |batch| + 1
  {
    if batch == [] then NextBatch(s, script, want, count)
    else if !UnderLimit(s.limit, count) then Outcome(s, script, [], [], false)
    else if want == Some(count + 1) then Outcome(s, script, [], [batch[0]], false)
    else
      var o := Loop(s, batch[1..], script, want, count + 1);
      o.(yielded := [batch[0]] + o.yielded)
  }

  /**
   * The end of a batch: with a non-zero id a get-more goes out for the same
   * namespace and limit, and the loop goes on with its batch unless that is
   * null; with id 0 the enumeration is over.
   */
  function NextBatch(s: CursorState, script: seq<Reply>, want: Option<nat>, count: nat): Outcome
    requires Wants(want, count)
    decreases |script|, 0
  {
    if s.id == 0 then Outcome(s, script, [], [], false)
    else
      var m := GetMore(s.ns, s.id, s.limit);
      if script == [] then Outcome(s, script, [m], [], true)
      else
        var s' := AfterGetMore(s, script[0]);
        match script[0].documents
        case None => Outcome(s', script[1..], [m], [], false)
        case Some(b) =>
          var o := Loop(s', b, script[1..], want, count);
          o.(sent := [m] + o.sent)
  }

  /** Walking the held reply: a null batch cannot be walked. */
  function Run(s: CursorState, script: seq<Reply>, want: Option<nat>): Outcome
    requires s.reply.Some? && Wants(want, 0)
  {
    match s.reply.value.documents
    case None => Outcome(s, script, [], [], true)
    case Some(b) => Loop(s, b, script, want, 0)
  }

  /**
   * One enumeration of `Documents` by a consumer that takes `want` documents:
   * the query goes out first when no reply is held, then the held batch and
   * the batches of later get-mores are walked.
   */
  function Enumerate(s: CursorState, script: seq<Reply>, want: Option<nat>): Outcome
  {
    if want == Some(0) then Outcome(s, script, [], [], false)
    else if s.reply.Some? then Run(s, script, want)
    else
      var q := QueryMessage(s);
      if script == [] then Outcome(s, script, [q], [], true)
      else
        var o := Run(AfterQuery(s, script[0]), script[1..], want);
        o.(sent := [q] + o.sent)
  }

  // ---------------------------------------------------------------- dispose

  /** The state after `Dispose`: the id is 0. */
  function AfterDispose(s: CursorState): (t: CursorState)
    ensures t.id == 0
  {
    s.(id := 0)
  }

  /** What `Dispose` sends: one kill-cursors for a non-zero id, nothing for id 0. */
  function DisposeSent(s: CursorState): seq<Message>
  {
    if s.id == 0 then [] else [KillCursors(s.id)]
  }

  // ---------------------------------------------------------------- properties

  /** The limit becomes its absolute value, except the one value whose negation wraps back to itself. */
  lemma NormalizedLimitIsAbs(limit: int32)
    ensures limit > INT32_MIN ==> NormalizedLimit(limit) as int == if limit < 0 then -limit else limit
    ensures limit == INT32_MIN ==> NormalizedLimit(limit) == INT32_MIN
    ensures NormalizedLimit(NormalizedLimit(limit)) == NormalizedLimit(limit)
  {
  }

  /** Sorting wraps the selector: the query document holds it under "query" and the order under "orderby", in that order. */
  lemma SortedQueryShape(s: CursorState)
    requires s.orderBy.Some?
    ensures var q := EffectiveQuery(s);
      |q| == 2 && UniqueNames(q) &&
      Lookup(q, QUERY) == Some(Document(s.spec)) &&
      Lookup(q, ORDERBY) == Some(Document(s.orderBy.value)) &&
      q[0].name == QUERY && q[1].name == ORDERBY
  {
    var q := EffectiveQuery(s);
    assert q[0].name != ORDERBY by {
      assert q[0].name[0] != ORDERBY[0];
    }
    assert q[1..][0] == q[1];
  }

  /** Without a sort, the selector goes out as it is. */
  lemma UnsortedQueryIsSpec(s: CursorState)
    requires s.orderBy.None?
    ensures QueryMessage(s).query == s.spec
  {
  }

  /** The number of replies a run used. */
  function Used(script: seq<Reply>, o: Outcome): int
  {
    |script| - |o.script|
  }

  /** The id in force when the i-th get-more of a loop is sent: the loop's own, then each reply's. */
  function IdBefore(s: CursorState, script: seq<Reply>, i: nat): int64
    requires i <= |script|
  {
    if i == 0 then s.id else script[i - 1].cursorId
  }

  /** The documents of a sequence of replies, batch after batch (a null batch holds none). */
  function Docs(rs: seq<Reply>): seq<Doc>
  {
    if rs == [] then [] else rs[0].documents.GetOr([]) + Docs(rs[1..])
  }

  lemma {:induction false} DocsAppend(a: seq<Reply>, b: seq<Reply>)
    ensures Docs(a + b) == Docs(a) + Docs(b)
  {
    if a != [] {
      assert (a + b)[0] == a[0] && (a + b)[1..] == a[1..] + b;
      DocsAppend(a[1..], b);
    } else {
      assert a + b == b;
    }
  }

  /**
   * What a run from state `s` did to the state and the script, and what it
   * sent: it used a prefix of the replies; its messages are get-mores, one per
   * reply used, plus one when the replies ran out; the i-th carries the
   * namespace, the limit and the id that was current when it was sent, which
   * is never 0; and the state ends with the last reply used, nothing else
   * changed.
   */
  predicate SentGetMores(s: CursorState, script: seq<Reply>, o: Outcome)
  {
    var k := Used(script, o);
    0 <= k <= |script| && o.script == script[k..] &&
    |o.sent| == k + (if o.faulted then 1 else 0) &&
    (forall i :: 0 <= i < |o.sent| ==>
       o.sent[i] == GetMore(s.ns, IdBefore(s, script, i), s.limit) && IdBefore(s, script, i) != 0) &&
    o.state == (if k == 0 then s else AfterGetMore(s, script[k - 1]))
  }

  lemma {:induction false} LoopSends(s: CursorState, batch: seq<Doc>, script: seq<Reply>, want: Option<nat>, count: nat)
    requires Wants(want, count)
    ensures SentGetMores(s, script, Loop(s, batch, script, want, count))
    decreases |script|, |batch| + 1
  {
    if batch == [] {
      NextSends(s, script, want, count);
    } else if UnderLimit(s.limit, count) && want != Some(count + 1) {
      LoopSends(s, batch[1..], script, want, count + 1);
    }
  }

  lemma {:induction false} NextSends(s: CursorState, script: seq<Reply>, want: Option<nat>, count: nat)
    requires Wants(want, count)
    ensures SentGetMores(s, script, NextBatch(s, script, want, count))
    decreases |script|, 0
  {
    if s.id != 0 && script != [] && script[0].documents.Some? {
      var s' := AfterGetMore(s, script[0]);
      var rest := script[1..];
      var o' := Loop(s', script[0].documents.value, rest, want, count);
      LoopSends(s', script[0].documents.value, rest, want, count);
      var o := NextBatch(s, script, want, count);
      var k' := Used(rest, o');
      assert rest[k'..] == script[k' + 1..];
      forall i | 0 < i < |o.sent|
        ensures o.sent[i] == GetMore(s.ns, IdBefore(s, script, i), s.limit) && IdBefore(s, script, i) != 0
      {
        assert o.sent[i] == o'.sent[i - 1];
        assert IdBefore(s', rest, i - 1) == IdBefore(s, script, i);
      }
      if k' > 0 {
        assert rest[k' - 1] == script[k'];
      }
    }
  }

  /**
   * The documents of a run come in the order the server delivered them: a
   * prefix of what was left of the batch followed by the batches of the
   * replies it used; with no limit, a consumer that takes everything and no
   * fault, all of them.
   */
  predicate YieldedInOrder(s: CursorState, batch: seq<Doc>, script: seq<Reply>, want: Option<nat>, o: Outcome)
  {
    var k := Used(script, o);
    0 <= k <= |script| &&
    o.yielded <= batch + Docs(script[..k]) &&
    (s.limit == 0 && want.None? && !o.faulted ==> o.yielded == batch + Docs(script[..k]))
  }

  lemma {:induction false} LoopOrder(s: CursorState, batch: seq<Doc>, script: seq<Reply>, want: Option<nat>, count: nat)
    requires Wants(want, count)
    ensures YieldedInOrder(s, batch, script, want, Loop(s, batch, script, want, count))
    decreases |script|, |batch| + 1
  {
    if batch == [] {
      NextOrder(s, script, want, count);
      assert [] + Docs(script[..Used(script, NextBatch(s, script, want, count))]) ==
             Docs(script[..Used(script, NextBatch(s, script, want, count))]);
    } else if UnderLimit(s.limit, count) && want != Some(count + 1) {
      var o' := Loop(s, batch[1..], script, want, count + 1);
      LoopOrder(s, batch[1..], script, want, count + 1);
      var d := Docs(script[..Used(script, o')]);
      assert batch + d == [batch[0]] + (batch[1..] + d);
    }
  }

  lemma {:induction false} NextOrder(s: CursorState, script: seq<Reply>, want: Option<nat>, count: nat)
    requires Wants(want, count)
    ensures YieldedInOrder(s, [], script, want, NextBatch(s, script, want, count))
    decreases |script|, 0
  {
    var o := NextBatch(s, script, want, count);
    if s.id != 0 && script != [] {
      var r := script[0];
      assert Docs([r]) == r.documents.GetOr([]) by {
        assert [r][1..] == [];
      }
      if r.documents.Some? {
        var b := r.documents.value;
        var rest := script[1..];
        var o' := Loop(AfterGetMore(s, r), b, rest, want, count);
        LoopOrder(AfterGetMore(s, r), b, rest, want, count);
        var k' := Used(rest, o');
        assert script[..k' + 1] == [r] + rest[..k'];
        DocsAppend([r], rest[..k']);
      } else {
        assert script[..1] == [r];
      }
    }
  }

  /** With a positive limit a run yields at most the limit, counted from `count`; with a negative one, nothing. */
  predicate WithinLimit(s: CursorState, count: nat, o: Outcome)
  {
    (s.limit > 0 ==> |o.yielded| <= s.limit - count) && (s.limit < 0 ==> o.yielded == [])
  }

  lemma {:induction false} LoopLimit(s: CursorState, batch: seq<Doc>, script: seq<Reply>, want: Option<nat>, count: nat)
    requires Wants(want, count)
    requires s.limit > 0 ==> count <= s.limit
    ensures WithinLimit(s, count, Loop(s, batch, script, want, count))
    decreases |script|, |batch| + 1
  {
    if batch == [] {
      NextLimit(s, script, want, count);
    } else if UnderLimit(s.limit, count) && want != Some(count + 1) {
      LoopLimit(s, batch[1..], script, want, count + 1);
    }
  }

  lemma {:induction false} NextLimit(s: CursorState, script: seq<Reply>, want: Option<nat>, count: nat)
    requires Wants(want, count)
    requires s.limit > 0 ==> count <= s.limit
    ensures WithinLimit(s, count, NextBatch(s, script, want, count))
    decreases |script|, 0
  {
    if s.id != 0 && script != [] && script[0].documents.Some? {
      LoopLimit(AfterGetMore(s, script[0]), script[0].documents.value, script[1..], want, count);
    }
  }

  /** A run yields at most what the consumer still wants. */
  lemma {:induction false} LoopWant(s: CursorState, batch: seq<Doc>, script: seq<Reply>, want: Option<nat>, count: nat)
    requires Wants(want, count)
    ensures want.Some? ==> |Loop(s, batch, script, want, count).yielded| <= want.value - count
    decreases |script|, |batch| + 1
  {
    if batch == [] {
      NextWant(s, script, want, count);
    } else if UnderLimit(s.limit, count) && want != Some(count + 1) {
      LoopWant(s, batch[1..], script, want, count + 1);
    }
  }

  lemma {:induction false} NextWant(s: CursorState, script: seq<Reply>, want: Option<nat>, count: nat)
    requires Wants(want, count)
    ensures want.Some? ==> |NextBatch(s, script, want, count).yielded| <= want.value - count
    decreases |script|, 0
  {
    if s.id != 0 && script != [] && script[0].documents.Some? {
      LoopWant(AfterGetMore(s, script[0]), script[0].documents.value, script[1..], want, count);
    }
  }

  /**
   * Why a run from a held reply ends. It faults only when a get-more finds
   * the replies used up, the id still live. Otherwise one of the loop's exits
   * was taken: the id is 0, the last get-more brought a null batch, the limit
   * is reached, or the consumer has all it wants. So get-mores go on for as
   * long as none of these holds.
   */
  predicate Ended(s: CursorState, count: nat, want: Option<nat>, o: Outcome)
  {
    o.state.reply.Some? &&
    (o.faulted ==> o.script == [] && o.state.id != 0) &&
    (!o.faulted ==>
       o.state.id == 0 || o.state.reply.value.documents.None? ||
       !UnderLimit(s.limit, count + |o.yielded|) ||
       (want.Some? && count + |o.yielded| == want.value))
  }

  lemma {:induction false} LoopEnds(s: CursorState, batch: seq<Doc>, script: seq<Reply>, want: Option<nat>, count: nat)
    requires s.reply.Some? && Wants(want, count)
    ensures Ended(s, count, want, Loop(s, batch, script, want, count))
    decreases |script|, |batch| + 1
  {
    if batch == [] {
      NextEnds(s, script, want, count);
    } else if UnderLimit(s.limit, count) && want != Some(count + 1) {
      LoopEnds(s, batch[1..], script, want, count + 1);
    }
  }

  lemma {:induction false} NextEnds(s: CursorState, script: seq<Reply>, want: Option<nat>, count: nat)
    requires s.reply.Some? && Wants(want, count)
    ensures Ended(s, count, want, NextBatch(s, script, want, count))
    decreases |script|, 0
  {
    if s.id != 0 && script != [] && script[0].documents.Some? {
      LoopEnds(AfterGetMore(s, script[0]), script[0].documents.value, script[1..], want, count);
    }
  }

  /**
   * A batch the limit and the consumer both let through whole (no limit, or
   * one the batch stays within; a consumer that wants more than the batch)
   * is yielded whole and in order, and the loop goes on as at the end of a batch.
   */
  lemma {:induction false} LoopFull(s: CursorState, batch: seq<Doc>, script: seq<Reply>, want: Option<nat>, count: nat)
    requires s.limit == 0 || (s.limit > 0 && count + |batch| <= s.limit as int)
    requires want.None? || count + |batch| < want.value
    ensures var e := NextBatch(s, script, want, count + |batch|);
      Loop(s, batch, script, want, count) == e.(yielded := batch + e.yielded)
    decreases |batch|
  {
    if batch != [] {
      LoopFull(s, batch[1..], script, want, count + 1);
      var e := NextBatch(s, script, want, count + |batch|);
      assert batch + e.yielded == [batch[0]] + (batch[1..] + e.yielded);
    } else {
      assert [] + NextBatch(s, script, want, count).yielded == NextBatch(s, script, want, count).yielded;
    }
  }

  /**
   * A get-more follows a batch that exactly filled a positive limit: the check
   * before the get-more looks at the id only, not at the count, though nothing
   * more can be yielded.
   */
  lemma GetMoreAfterFullBatch(s: CursorState, batch: seq<Doc>, script: seq<Reply>)
    requires s.limit > 0 && |batch| == s.limit as int && s.id != 0
    ensures var o := Loop(s, batch, script, None, 0);
      o.yielded == batch && |o.sent| >= 1 && o.sent[0] == GetMore(s.ns, s.id, s.limit)
  {
    LoopFull(s, batch, script, None, 0);
    NextLimit(s, script, None, |batch|);
  }

  /**
   * The query goes out only when no reply is held and the consumer pulls at
   * least once, and then first; every other message of an enumeration is a
   * get-more for the cursor's namespace with a non-zero id. Get-mores stop
   * only at an exit of the loop: id 0, a null batch, the limit, or a
   * satisfied consumer.
   */
  lemma EnumerateSends(s: CursorState, script: seq<Reply>, want: Option<nat>)
    ensures var o := Enumerate(s, script, want);
      (s.reply.None? && want != Some(0) <==> |o.sent| > 0 && o.sent[0].Query?) &&
      (|o.sent| > 0 && o.sent[0].Query? ==> o.sent[0] == QueryMessage(s)) &&
      (forall i :: 0 <= i < |o.sent| && !o.sent[i].Query? ==>
         o.sent[i].GetMore? && o.sent[i].ns == s.ns && o.sent[i].cursorId != 0) &&
      (forall i :: 0 < i < |o.sent| ==> o.sent[i].GetMore?) &&
      (s.reply.None? ==> forall i :: 0 < i < |o.sent| ==> o.sent[i].numberToReturn == NormalizedLimit(s.limit)) &&
      (s.reply.Some? ==> forall i :: 0 <= i < |o.sent| ==> o.sent[i].numberToReturn == s.limit)
    ensures var o := Enumerate(s, script, want);
      want != Some(0) && !o.faulted ==>
        o.state.reply.Some? &&
        (o.state.id == 0 || o.state.reply.value.documents.None? ||
         !UnderLimit(o.state.limit, |o.yielded|) || (want.Some? && |o.yielded| == want.value))
  {
    var o := Enumerate(s, script, want);
    EnumerateEnds(s, script, want);
    if want == Some(0) {
    } else if s.reply.Some? {
      if s.reply.value.documents.Some? {
        LoopSends(s, s.reply.value.documents.value, script, want, 0);
      }
    } else if script != [] {
      var s' := AfterQuery(s, script[0]);
      if s'.reply.value.documents.Some? {
        var b := s'.reply.value.documents.value;
        LoopSends(s', b, script[1..], want, 0);
        var o' := Loop(s', b, script[1..], want, 0);
        assert forall i :: 0 < i < |o.sent| ==> o.sent[i] == o'.sent[i - 1];
      }
    }
  }

  /**
   * After an enumeration that consumed replies, the cursor holds the last of
   * them and its id; one that consumed none leaves the cursor as it was.
   */
  lemma EnumerateId(s: CursorState, script: seq<Reply>, want: Option<nat>)
    ensures var o := Enumerate(s, script, want);
      var k := Used(script, o);
      0 <= k <= |script| &&
      (k > 0 ==> o.state.reply == Some(script[k - 1]) && o.state.id == script[k - 1].cursorId) &&
      (k == 0 ==> o.state == s)
    ensures var o := Enumerate(s, script, want);
      o.state.spec == s.spec && o.state.ns == s.ns && o.state.orderBy == s.orderBy &&
      o.state.fields == s.fields && o.state.skip == s.skip
    ensures var o := Enumerate(s, script, want);
      (s.reply.Some? ==> o.state.reply.Some?) &&
      (s.reply.None? && want != Some(0) && script != [] ==> o.state.reply.Some?)
  {
    if want != Some(0) {
      if s.reply.Some? {
        if s.reply.value.documents.Some? {
          LoopSends(s, s.reply.value.documents.value, script, want, 0);
        }
      } else if script != [] {
        var s' := AfterQuery(s, script[0]);
        if s'.reply.value.documents.Some? {
          LoopSends(s', s'.reply.value.documents.value, script[1..], want, 0);
        }
      }
    }
  }

  /** The batch a cursor holds, when it holds one. */
  function HeldBatch(s: CursorState): seq<Doc>
  {
    if s.reply.Some? then s.reply.value.documents.GetOr([]) else []
  }

  /** Walking the held reply yields in delivery order: `YieldedInOrder` from the held batch. */
  lemma RunOrder(s: CursorState, script: seq<Reply>, want: Option<nat>)
    requires s.reply.Some? && Wants(want, 0)
    ensures YieldedInOrder(s, HeldBatch(s), script, want, Run(s, script, want))
  {
    if s.reply.value.documents.Some? {
      LoopOrder(s, s.reply.value.documents.value, script, want, 0);
    } else {
      assert script[..0] == [];
    }
  }

  /**
   * One enumeration yields documents in the order the server delivered them:
   * a prefix of the held batch followed by the batches of the replies used;
   * with limit 0 after the query, a consumer that takes everything and no
   * fault, all of them, and the replies used run on until the id is 0 or a
   * batch is null.
   */
  lemma EnumerateOrder(s: CursorState, script: seq<Reply>, want: Option<nat>)
    ensures var o := Enumerate(s, script, want);
      var k := Used(script, o);
      0 <= k <= |script| &&
      o.yielded <= HeldBatch(s) + Docs(script[..k]) &&
      (o.state.limit == 0 && want.None? && !o.faulted ==>
         o.yielded == HeldBatch(s) + Docs(script[..k]) &&
         o.state.reply.Some? && (o.state.id == 0 || o.state.reply.value.documents.None?))
  {
    var o := Enumerate(s, script, want);
    EnumerateEnds(s, script, want);
    if want == Some(0) {
      assert script[..0] == [];
    } else if s.reply.Some? {
      RunOrder(s, script, want);
      RunLimitKept(s, script, want);
    } else if script != [] {
      var r := script[0];
      var s' := AfterQuery(s, r);
      var rest := script[1..];
      var o' := Run(s', rest, want);
      RunOrder(s', rest, want);
      RunLimitKept(s', rest, want);
      var k' := Used(rest, o');
      assert script[..k' + 1] == [r] + rest[..k'];
      DocsAppend([r], rest[..k']);
      assert Docs([r]) == HeldBatch(s') by {
        assert [r][1..] == [];
      }
    }
  }

  /**
   * When one enumeration ends. A consumer that takes nothing sends and
   * changes nothing. It faults only when a reply it needs is missing (the
   * query's, or a get-more's while the id is live) or the held batch is null.
   * Otherwise it ends at one of the loop's exits: id 0, a null batch from a
   * get-more, the limit in force reached, or the consumer satisfied.
   */
  lemma EnumerateEnds(s: CursorState, script: seq<Reply>, want: Option<nat>)
    ensures var o := Enumerate(s, script, want);
      (want == Some(0) ==> o == Outcome(s, script, [], [], false)) &&
      (o.faulted ==>
         (o.script == [] && (o.state.reply.None? || o.state.id != 0)) ||
         (o.state.reply.Some? && o.state.reply.value.documents.None? && o.yielded == [])) &&
      (want != Some(0) && !o.faulted ==>
         o.state.reply.Some? &&
         (o.state.id == 0 || o.state.reply.value.documents.None? ||
          !UnderLimit(o.state.limit, |o.yielded|) ||
          (want.Some? && |o.yielded| == want.value)))
  {
    if want != Some(0) {
      var s' := if s.reply.Some? then s else if script != [] then AfterQuery(s, script[0]) else s;
      var rest := if s.reply.Some? then script else if script != [] then script[1..] else script;
      if s'.reply.Some? && s'.reply.value.documents.Some? {
        var b := s'.reply.value.documents.value;
        LoopEnds(s', b, rest, want, 0);
        LoopSends(s', b, rest, want, 0);
      }
    }
  }

  /** A run keeps the limit in force. */
  lemma RunLimitKept(s: CursorState, script: seq<Reply>, want: Option<nat>)
    requires s.reply.Some? && Wants(want, 0)
    ensures Run(s, script, want).state.limit == s.limit
  {
    if s.reply.value.documents.Some? {
      LoopSends(s, s.reply.value.documents.value, script, want, 0);
    }
  }

  /**
   * The bounds of one enumeration: never more than the consumer wants; with a
   * positive limit in force (after normalisation) never more than the limit;
   * with a negative one, nothing.
   */
  lemma EnumerateBounds(s: CursorState, script: seq<Reply>, want: Option<nat>)
    ensures var o := Enumerate(s, script, want);
      (want.Some? ==> |o.yielded| <= want.value) &&
      (o.state.limit > 0 ==> |o.yielded| <= o.state.limit) &&
      (o.state.limit < 0 ==> o.yielded == [])
  {
    if want != Some(0) {
      var s' := if s.reply.Some? then s else if script != [] then AfterQuery(s, script[0]) else s;
      var rest := if s.reply.Some? then script else if script != [] then script[1..] else script;
      if s'.reply.Some? && s'.reply.value.documents.Some? {
        var b := s'.reply.value.documents.value;
        LoopLimit(s', b, rest, want, 0);
        LoopWant(s', b, rest, want, 0);
        LoopSends(s', b, rest, want, 0);
      }
    }
  }

  /**
   * A cursor whose limit is -5 and whose one reply holds five documents and id
   * 0 yields exactly those five, sends the query (with -5) and nothing else,
   * ends with limit 5 and id 0, and then disposes without a kill-cursors.
   */
  lemma NegativeLimitSingleBatch(s: CursorState, b: seq<Doc>, rest: seq<Reply>)
    requires s.reply.None? && s.limit == -5 && |b| == 5
    ensures var o := Enumerate(s, [Reply(0, Some(b))] + rest, None);
      o.yielded == b && o.sent == [QueryMessage(s)] && QueryMessage(s).numberToReturn == -5 &&
      o.state.limit == 5 && o.state.id == 0 && !o.faulted && DisposeSent(o.state) == []
  {
    var s' := AfterQuery(s, Reply(0, Some(b)));
    assert s'.limit == 5;
    LoopFull(s', b, rest, None, 0);
  }

  /**
   * A batch longer than what the positive limit still allows is cut off at
   * the limit: exactly the allowed documents are yielded, and the loop breaks
   * off without a further request.
   */
  lemma {:induction false} LoopBreaksAtLimit(s: CursorState, batch: seq<Doc>, script: seq<Reply>, want: Option<nat>, count: nat)
    requires s.limit > 0 && count <= s.limit as int < count + |batch|
    requires want.None? || s.limit as int < want.value
    ensures Wants(want, count)
    ensures Loop(s, batch, script, want, count) == Outcome(s, script, [], batch[..s.limit as int - count], false)
    decreases |batch|
  {
    if count < s.limit as int {
      LoopBreaksAtLimit(s, batch[1..], script, want, count + 1);
      assert batch[..s.limit as int - count] == [batch[0]] + batch[1..][..s.limit as int - count - 1];
    }
  }

  /**
   * A first reply whose batch exceeds the normalised positive limit yields
   * exactly that many documents and leaves the query as the only message
   * sent, whatever the reply's cursor id.
   */
  lemma FirstBatchBreaksAtLimit(s: CursorState, r: Reply, rest: seq<Reply>, want: Option<nat>)
    requires s.reply.None? && r.documents.Some?
    requires 0 < NormalizedLimit(s.limit) as int < |r.documents.value|
    requires want.None? || NormalizedLimit(s.limit) as int < want.value
    ensures Enumerate(s, [r] + rest, want) ==
      Outcome(AfterQuery(s, r), rest, [QueryMessage(s)], r.documents.value[..NormalizedLimit(s.limit)], false)
  {
    assert ([r] + rest)[0] == r && ([r] + rest)[1..] == rest;
    LoopBreaksAtLimit(AfterQuery(s, r), r.documents.value, rest, want, 0);
  }

  /**
   * A consumer that stops inside the batch, no later than the limit allows,
   * gets exactly the documents up to there, and nothing is sent.
   */
  lemma {:induction false} LoopStopsAtWant(s: CursorState, batch: seq<Doc>, script: seq<Reply>, w: nat, count: nat)
    requires s.limit == 0 || w <= s.limit as int
    requires count < w <= count + |batch|
    ensures Loop(s, batch, script, Some(w), count) == Outcome(s, script, [], batch[..w - count], false)
    decreases |batch|
  {
    if w != count + 1 {
      LoopStopsAtWant(s, batch[1..], script, w, count + 1);
      assert batch[..w - count] == [batch[0]] + batch[1..][..w - count - 1];
    }
  }

  /**
   * A consumer that stops inside the first batch, no later than the
   * (normalised) limit allows, gets exactly the documents it took; only the
   * query has been sent, and the cursor holds the server's id, ready for
   * `Dispose` to kill it.
   */
  lemma EarlyStop(s: CursorState, r: Reply, rest: seq<Reply>, k: nat)
    requires s.reply.None? && r.documents.Some? && 0 < k <= |r.documents.value|
    requires NormalizedLimit(s.limit) == 0 || k <= NormalizedLimit(s.limit) as int
    ensures var o := Enumerate(s, [r] + rest, Some(k));
      o == Outcome(AfterQuery(s, r), rest, [QueryMessage(s)], r.documents.value[..k], false) &&
      DisposeSent(o.state) == (if r.cursorId == 0 then [] else [KillCursors(r.cursorId)])
  {
    assert ([r] + rest)[0] == r && ([r] + rest)[1..] == rest;
    LoopStopsAtWant(AfterQuery(s, r), r.documents.value, rest, k, 0);
  }

  /** A second `Dispose` sends nothing and changes nothing. */
  lemma DisposeIdempotent(s: CursorState)
    ensures AfterDispose(AfterDispose(s)) == AfterDispose(s)
    ensures DisposeSent(AfterDispose(s)) == []
    ensures |DisposeSent(s)| <= 1
  {
  }

  /** A cursor the server has exhausted (id 0) disposes without a message; any other sends its own id once. */
  lemma DisposeSendsIffLive(s: CursorState)
    ensures DisposeSent(s) == [] <==> s.id == 0
    ensures DisposeSent(s) != [] ==> DisposeSent(s) == [KillCursors(s.id)]
    ensures AfterDispose(s) == s.(id := 0)
  {
  }
}
