/**
 * The cursor as the driver runs it: an object whose id, reply and limit are
 * updated in place as it sends the query, get-mores and the kill-cursors over
 * a connection. The connection stands in for the transport: it answers each
 * two-way message with the next reply of a script, fails once the script is
 * used up, and keeps a ghost log of every message sent.
 */
module Cursors {
  import opened Bytes
  import opened Options
  import opened Bson
  import opened CursorSpec

  class Connection {
    /** The replies the server will send, in order. */
    var replies: seq<Reply>
    /** Every message sent so far. */
    ghost var log: seq<Message>

    constructor(replies: seq<Reply>)
      ensures this.replies == replies && log == []
    {
      this.replies := replies;
      log := [];
    }

    /** Sends a message that expects a reply; None when the transport has no reply to give. */
    method SendTwoWayMessage(m: Message) returns (r: Option<Reply>)
      modifies this
      ensures log == old(log) + [m]
      ensures old(replies) == [] ==> r.None? && replies == old(replies)
      ensures old(replies) != [] ==> r == Some(old(replies)[0]) && replies == old(replies)[1..]
    {
      log := log + [m];
      if replies == [] {
        r := None;
      } else {
        r := Some(replies[0]);
        replies := replies[1..];
      }
    }

    /** Sends a message that gets no reply. */
    method SendMessage(m: Message)
      modifies this
      ensures log == old(log) + [m] && replies == old(replies)
    {
      log := log + [m];
    }
  }

  /**
   * How far an enumeration has got: finishing the run `o` from here gives the
   * whole enumeration `target`, given what was already yielded and sent.
   */
  ghost predicate Resumes(target: Outcome, o: Outcome, yielded: seq<Doc>, sent: seq<Message>)
  {
    target.state == o.state && target.script == o.script && target.faulted == o.faulted &&
    target.yielded == yielded + o.yielded && target.sent == sent + o.sent
  }

  /** `o` with `y` yielded before its own documents. */
  function Prepend(y: seq<Doc>, o: Outcome): (r: Outcome)
    ensures r.state == o.state && r.script == o.script && r.sent == o.sent && r.faulted == o.faulted
    ensures r.yielded == y + o.yielded
  {
    o.(yielded := y + o.yielded)
  }

  lemma PrependTwice(a: seq<Doc>, b: seq<Doc>, o: Outcome)
    ensures Prepend(a, Prepend(b, o)) == Prepend(a + b, o)
  {
    assert a + (b + o.yielded) == (a + b) + o.yielded;
  }

  /** Yielding what was prepended moves it from the pending run to what was yielded. */
  lemma ResumesPrepend(target: Outcome, y: seq<Doc>, o: Outcome, yielded: seq<Doc>, sent: seq<Message>)
    requires Resumes(target, Prepend(y, o), yielded, sent)
    ensures Resumes(target, o, yielded + y, sent)
  {
    assert yielded + (y + o.yielded) == yielded + y + o.yielded;
  }

  /** At the end of a batch with id 0 the enumeration is over. */
  lemma LastBatch(target: Outcome, s: CursorState, script: seq<Reply>, want: Option<nat>,
                  count: nat, yielded: seq<Doc>, sent: seq<Message>)
    requires Wants(want, count) && s.id == 0
    requires Resumes(target, NextBatch(s, script, want, count), yielded, sent)
    ensures target == Outcome(s, script, sent, yielded, false)
  {
  }

  /**
   * At the end of a batch with a live id the get-more `m` goes out: with no
   * reply the enumeration faults, a null batch ends it, and any other batch is
   * walked next.
   */
  lemma GetMoreStep(target: Outcome, s: CursorState, script: seq<Reply>, want: Option<nat>,
                    count: nat, yielded: seq<Doc>, sent: seq<Message>, m: Message)
    requires Wants(want, count) && s.id != 0 && m == GetMore(s.ns, s.id, s.limit)
    requires Resumes(target, NextBatch(s, script, want, count), yielded, sent)
    ensures script == [] ==> target == Outcome(s, script, sent + [m], yielded, true)
    ensures script != [] && script[0].documents.None? ==>
      target == Outcome(AfterGetMore(s, script[0]), script[1..], sent + [m], yielded, false)
    ensures script != [] && script[0].documents.Some? ==>
      Resumes(target, Loop(AfterGetMore(s, script[0]), script[0].documents.value, script[1..], want, count), yielded, sent + [m])
  {
    if script != [] && script[0].documents.Some? {
      var o := Loop(AfterGetMore(s, script[0]), script[0].documents.value, script[1..], want, count);
      assert sent + ([m] + o.sent) == sent + [m] + o.sent;
    }
  }

  class Cursor {
    const connection: Connection
    var ns: string
    var spec: Doc
    var fields: Option<Doc>
    var orderBy: Option<Doc>
    var limit: int32
    var skip: int32
    var id: int64
    var reply: Option<Reply>

    /** The cursor's fields as one value. */
    function State(): CursorState
      reads this
    {
      CursorState(ns, spec, fields, orderBy, limit, skip, id, reply)
    }

    /** A cursor over `fullCollectionName`: nothing is sent until it is enumerated. */
    constructor(conn: Connection, fullCollectionName: string, spec: Option<Doc>, limit: int32, skip: int32, fields: Option<Doc>)
      ensures connection == conn
      ensures State() == NewCursor(fullCollectionName, spec, limit, skip, fields)
    {
      var sel := spec;
      if sel.None? {
        sel := Some([]);
      }
      ns := fullCollectionName;
      this.limit := limit;
      this.skip := skip;
      connection := conn;
      this.fields := fields;
      this.spec := sel.value;
      orderBy := None;
      id := -1;
      reply := None;
    }

    /** `Sort`: a null order is refused and changes nothing; otherwise it becomes the sort order. */
    method Sort(order: Option<Doc>) returns (ok: bool)
      modifies this
      ensures ok <==> order.Some?
      ensures State() == if ok then old(State()).(orderBy := order) else old(State())
    {
      if order.None? {
        return false;
      }
      orderBy := order;
      ok := true;
    }

    /** The query message for the cursor as it stands. */
    method BuildQueryMessage() returns (m: Message)
      ensures m == QueryMessage(State())
    {
      var query := spec;
      if orderBy.Some? {
        query := [Element(QUERY, Document(spec)), Element(ORDERBY, Document(orderBy.value))];
      }
      m := Query(ns, skip, limit, query, None);
      if fields.Some? {
        m := m.(fieldSelector := fields);
      }
    }

    /** Sends the query and takes in its reply; fails, changing nothing, when no reply comes. */
    method RetrieveData() returns (ok: bool)
      modifies this, connection
      ensures connection.log == old(connection.log) + [QueryMessage(old(State()))]
      ensures ok <==> old(connection.replies) != []
      ensures ok ==> State() == AfterQuery(old(State()), old(connection.replies)[0]) &&
                     connection.replies == old(connection.replies)[1..]
      ensures !ok ==> State() == old(State()) && connection.replies == old(connection.replies)
    {
      var query := BuildQueryMessage();
      if fields.Some? {
        query := query.(fieldSelector := fields);
      }
      var r := connection.SendTwoWayMessage(query);
      if r.None? {
        return false;
      }
      reply := r;
      id := r.value.cursorId;
      if limit < 0 {
        limit := Wrap32(limit * -1);
      }
      ok := true;
    }

    /** Sends a get-more for the current id and limit and takes in its reply. */
    method RetrieveMoreData() returns (ok: bool)
      modifies this, connection
      ensures connection.log == old(connection.log) + [GetMore(old(ns), old(id), old(limit))]
      ensures ok <==> old(connection.replies) != []
      ensures ok ==> State() == AfterGetMore(old(State()), old(connection.replies)[0]) &&
                     connection.replies == old(connection.replies)[1..]
      ensures !ok ==> State() == old(State()) && connection.replies == old(connection.replies)
    {
      var gmm := GetMore(ns, id, limit);
      var r := connection.SendTwoWayMessage(gmm);
      if r.None? {
        return false;
      }
      reply := r;
      id := r.value.cursorId;
      ok := true;
    }

    /**
     * `Documents`, enumerated by a consumer that takes `want` documents (None:
     * all of them) and then stops pulling. It does exactly what `Enumerate`
     * says: the same documents, the same messages, the same final state.
     */
    method Documents(want: Option<nat>) returns (yielded: seq<Doc>, faulted: bool)
      modifies this, connection
      ensures var o := Enumerate(old(State()), old(connection.replies), want);
        State() == o.state && connection.replies == o.script &&
        connection.log == old(connection.log) + o.sent &&
        yielded == o.yielded && faulted == o.faulted
    {
      yielded, faulted := [], false;
      if want == Some(0) {
        return;
      }
      if reply.None? {
        var ok := RetrieveData();
        if !ok {
          faulted := true;
          return;
        }
      }
      ghost var queried := connection.log;
      var bdocs := reply.value.documents;
      if bdocs.None? {
        faulted := true;
        return;
      }
      yielded, faulted := Walk(bdocs.value, want);
      ghost var o := Loop(old(State()), bdocs.value, old(connection.replies), want, 0);
      assert connection.log == old(connection.log) + (queried[|old(connection.log)|..] + connection.log[|queried|..]);
    }

    /**
     * The loop of `Documents` from the first document of `batch`: yields while
     * under the limit, sends a get-more at the end of each batch while the id
     * is live, and stops at a null batch, at id 0, at the limit or when the
     * consumer has had `want` documents. It does exactly what `Loop` says.
     */
    method Walk(batch0: seq<Doc>, want: Option<nat>) returns (yielded: seq<Doc>, faulted: bool)
      requires Wants(want, 0)
      modifies this, connection
      ensures var o := Loop(old(State()), batch0, old(connection.replies), want, 0);
        State() == o.state && connection.replies == o.script &&
        connection.log == old(connection.log) + o.sent &&
        yielded == o.yielded && faulted == o.faulted
    {
      yielded, faulted := [], false;
      ghost var target := Loop(State(), batch0, connection.replies, want, 0);
      ghost var sent: seq<Message> := [];
      var docsReturned: nat := 0;
      var batch := batch0;
      var shouldBreak := false;
      while !shouldBreak
        invariant connection.log == old(connection.log) + sent
        invariant Wants(want, docsReturned)
        invariant !shouldBreak ==> Resumes(target, Loop(State(), batch, connection.replies, want, docsReturned), yielded, sent)
        invariant shouldBreak ==> target == Outcome(State(), connection.replies, sent, yielded, faulted)
        decreases |connection.replies| + (if shouldBreak then 0 else 1)
      {
        ghost var before := State();
        ghost var script := connection.replies;
        var taken, stopped;
        taken, docsReturned, stopped := WalkBatch(batch, want, docsReturned, script);
        if stopped {
          yielded := yielded + taken;
          return;
        }
        ResumesPrepend(target, taken, NextBatch(before, script, want, docsReturned), yielded, sent);
        yielded := yielded + taken;
        if id != 0 && !shouldBreak {
          ghost var m := GetMore(ns, id, limit);
          GetMoreStep(target, before, script, want, docsReturned, yielded, sent, m);
          var ok := RetrieveMoreData();
          sent := sent + [m];
          if !ok {
            faulted := true;
            return;
          }
          var bdocs := reply.value.documents;
          if bdocs.None? {
            shouldBreak := true;
          } else {
            batch := bdocs.value;
          }
        } else {
          LastBatch(target, before, script, want, docsReturned, yielded, sent);
          shouldBreak := true;
        }
      }
    }

    /**
     * The `foreach` over one batch: yields while under the limit, breaks off
     * (`yield break`) over it, and stops when the consumer has had `want`
     * documents. Either the run is over, having yielded `taken`, or it yielded
     * `taken` and goes on as at the end of the batch with the new count.
     */
    method WalkBatch(batch: seq<Doc>, want: Option<nat>, count: nat, ghost script: seq<Reply>)
      returns (taken: seq<Doc>, docsReturned: nat, stopped: bool)
      requires Wants(want, count)
      ensures !stopped ==> Wants(want, docsReturned)
      ensures stopped ==> Loop(State(), batch, script, want, count) == Outcome(State(), script, [], taken, false)
      ensures !stopped ==>
        Loop(State(), batch, script, want, count) == Prepend(taken, NextBatch(State(), script, want, docsReturned))
    {
      taken, docsReturned, stopped := [], count, false;
      var i := 0;
      while i < |batch|
        invariant 0 <= i <= |batch| && Wants(want, docsReturned)
        invariant Loop(State(), batch, script, want, count) == Prepend(taken, Loop(State(), batch[i..], script, want, docsReturned))
      {
        assert batch[i..][0] == batch[i] && batch[i..][1..] == batch[i + 1..];
        if limit == 0 || (limit != 0 && docsReturned < limit) {
          if want == Some(docsReturned + 1) {
            taken := taken + [batch[i]];
            return taken, docsReturned + 1, true;
          }
          PrependTwice(taken, [batch[i]], Loop(State(), batch[i + 1..], script, want, docsReturned + 1));
          docsReturned := docsReturned + 1;
          taken := taken + [batch[i]];
        } else {
          return taken, docsReturned, true;
        }
        i := i + 1;
      }
      assert batch[i..] == [];
    }

    /** `Dispose`: a live server cursor is killed once, and the id becomes 0. */
    method Dispose()
      modifies this, connection
      ensures State() == AfterDispose(old(State()))
      ensures connection.log == old(connection.log) + DisposeSent(old(State()))
      ensures connection.replies == old(connection.replies)
    {
      if id == 0 {
        return;
      }
      var kcm := KillCursors(id);
      connection.SendMessage(kcm);
      id := 0;
    }
  }

  // ---------------------------------------------------------------- the cursor's life, replayed

  /**
   * A limit of -5 against a server that answers with five documents and id 0:
   * the five documents come back, the query carries -5, and neither a
   * get-more nor a kill-cursors is ever sent, not even by `Dispose`.
   */
  method NegativeLimitScenario(b: seq<Doc>) returns (yielded: seq<Doc>, faulted: bool, ghost log: seq<Message>)
    requires |b| == 5
    ensures yielded == b && !faulted
    ensures log == [Query("db.things", 0, -5, [], None)]
  {
    var conn := new Connection([Reply(0, Some(b))]);
    var cursor := new Cursor(conn, "db.things", None, -5, 0, None);
    NegativeLimitSingleBatch(cursor.State(), b, []);
    assert [Reply(0, Some(b))] + [] == conn.replies;
    yielded, faulted := cursor.Documents(None);
    assert conn.log == [Query("db.things", 0, -5, [], None)] && cursor.id == 0;
    cursor.Dispose();
    log := conn.log;
  }

  /**
   * A consumer that takes two of three documents and disposes the cursor while
   * the server still holds it: one query, then exactly one kill-cursors for
   * the server's id; disposing again sends nothing more.
   */
  method EarlyDisposeScenario(d: seq<Doc>) returns (yielded: seq<Doc>, ghost log: seq<Message>)
    requires |d| == 3
    ensures yielded == d[..2]
    ensures log == [Query("db.things", 0, 0, [], None), KillCursors(42)]
  {
    var conn := new Connection([Reply(42, Some(d))]);
    var cursor := new Cursor(conn, "db.things", None, 0, 0, None);
    EarlyStop(cursor.State(), Reply(42, Some(d)), [], 2);
    assert [Reply(42, Some(d))] + [] == conn.replies;
    var faulted;
    yielded, faulted := cursor.Documents(Some(2));
    assert conn.log == [Query("db.things", 0, 0, [], None)] && cursor.id == 42;
    cursor.Dispose();
    cursor.Dispose();
    log := conn.log;
  }
}
