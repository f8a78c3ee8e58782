/** The queue of NFS requests, and directory listings read page by page. */
module Nfs {
  import opened SeqUtil

  const WORD: nat := 0x1_0000_0000
  const NULL_TOKEN: nat := WORD - 1

  type Name = seq<char>

  /** What a process is told */
  datatype Result = OK | FAILED(status: int) | EOF | NOMEM | ERROR | ENTRY(name: Name)

  datatype Kind =
    | LOOKUP(write: bool)
    | READ
    | WRITE
    | STAT
    | DIR(pos: nat, nbyte: nat, cpos: nat)
    | REMOVE

  datatype Request = Request(id: nat, token: nat, kind: Kind)

  /** What the server answers: a status, and for a directory some entries and the cookie of the
      next ones */
  datatype Reply = Reply(status: int, entries: seq<Name>, nextCookie: int)

  const NFS_OK: int := 0
  const NFSERR_NOENT: int := 2

  datatype Outcome = Again(kind: Kind) | Done(result: Result)

  // ---------------------------------------------------------------- the callbacks

  /** getdirent_cb: the entry is on this page, or on a later one, or there is none. */
  method GetdirentCb(pos: nat, nbyte: nat, cpos: nat, reply: Reply) returns (o: Outcome)
    requires cpos <= pos
    ensures reply.status != NFS_OK ==> o == Done(FAILED(reply.status))
    ensures reply.status == NFS_OK && pos - cpos < |reply.entries| ==>
      o == Done(Found(reply.entries[pos - cpos], nbyte))
    ensures reply.status == NFS_OK && pos - cpos >= |reply.entries| ==>
      o == if reply.nextCookie > 0 then Again(DIR(pos, nbyte, cpos + |reply.entries|)) else Done(EOF)
  {
    if reply.status != NFS_OK {
      return Done(FAILED(reply.status));
    }
    if cpos + |reply.entries| >= pos + 1 {
      var name := reply.entries[pos - cpos];
      if |name| + 1 <= nbyte {
        return Done(ENTRY(name));
      }
      return Done(NOMEM);
    } else if reply.nextCookie > 0 {
      return Again(DIR(pos, nbyte, cpos + |reply.entries|));
    }
    return Done(EOF);
  }

  /** The answer for an entry: its name, if that fits the buffer with its end mark */
  ghost function Found(name: Name, nbyte: nat): Result {
    if |name| < nbyte then ENTRY(name) else NOMEM
  }

  /** A file to be written that does not exist is created first; a directory may have more pages. */
  ghost predicate Unfinished(kind: Kind, reply: Reply) {
    match kind
    case LOOKUP(write) => write && reply.status == NFSERR_NOENT
    case DIR(pos, _, cpos) => reply.status == NFS_OK && pos - cpos >= |reply.entries| && reply.nextCookie > 0
    case _ => false
  }

  /** The request once it goes on: a directory request has gone past the entries of the page. */
  ghost function Advanced(kind: Kind, reply: Reply): Kind {
    match kind
    case DIR(pos, nbyte, cpos) => DIR(pos, nbyte, cpos + |reply.entries|)
    case _ => kind
  }

  /** What the process is told in the end: an entry of the directory, the end of it, success, or
      the failure the server reported */
  ghost function Answered(kind: Kind, reply: Reply): Result {
    if reply.status != NFS_OK then FAILED(reply.status)
    else if !kind.DIR? then OK
    else if 0 <= kind.pos - kind.cpos < |reply.entries| then Found(reply.entries[kind.pos - kind.cpos], kind.nbyte)
    else EOF
  }

  /** What a callback makes of the answer: the request is done, or another call is made for it. */
  method Handle(kind: Kind, reply: Reply) returns (o: Outcome)
    requires kind.DIR? ==> kind.cpos <= kind.pos
    ensures o.Again? ==> o.kind == Advanced(kind, reply)
    ensures o.Again? <==> Unfinished(kind, reply)
    ensures o.Done? ==> o.result == Answered(kind, reply)
  {
    if kind.DIR? {
      o := GetdirentCb(kind.pos, kind.nbyte, kind.cpos, reply);
    } else if kind.LOOKUP? && reply.status == NFSERR_NOENT && kind.write {
      o := Again(kind);
    } else if reply.status != NFS_OK {
      o := Done(FAILED(reply.status));
    } else {
      o := Done(OK);
    }
  }

  // ---------------------------------------------------------------- tokens

  /** The token of the request created as number `k`: a counter of one word, reduced */
  ghost function Token(k: nat): nat {
    k % WORD % (NULL_TOKEN - 1)
  }

  /** Among the requests `from`, `from + 1`, ... there are two with the same token. */
  ghost predicate Collide(from: nat, n: nat) {
    exists i, j :: from <= i < j < from + n && Token(i) == Token(j)
  }

  lemma {:induction false} TokenValue(k: nat)
    requires k < WORD + (NULL_TOKEN - 1)
    ensures Token(k) == if k < NULL_TOKEN - 1 then k else if k < WORD then k - (NULL_TOKEN - 1) else k - WORD
  {
    if k < NULL_TOKEN - 1 {
      assert k % WORD == k;
    } else if k < WORD {
      assert k % WORD == k;
      assert k % (NULL_TOKEN - 1) == k - (NULL_TOKEN - 1);
    } else {
      assert k % WORD == k - WORD;
    }
  }

  /** Whether two requests share a token depends on the counter, not on how often it has wrapped. */
  lemma {:induction false} TokenWraps(k: nat, q: nat)
    ensures Token(k + q * WORD) == Token(k)
  {
    assert (k + q * WORD) % WORD == k % WORD;
  }

  lemma {:induction false} CollideWraps(f: nat, q: nat, n: nat)
    ensures Collide(f + q * WORD, n) <==> Collide(f, n)
  {
    hide Token;
    var from := f + q * WORD;
    if Collide(from, n) {
      var i, j :| from <= i < j < from + n && Token(i) == Token(j);
      var i0, j0 := i - q * WORD, j - q * WORD;
      TokenWraps(i0, q);
      TokenWraps(j0, q);
      assert f <= i0 < j0 < f + n && Token(i0) == Token(j0);
    }
    if Collide(f, n) {
      var i, j :| f <= i < j < f + n && Token(i) == Token(j);
      TokenWraps(i, q);
      TokenWraps(j, q);
      assert from <= i + q * WORD < j + q * WORD < from + n && Token(i + q * WORD) == Token(j + q * WORD);
    }
  }

  /** Among `n` requests made one after the other two share a token: there are more of them than tokens,
      or they lie across the place where the counter wraps.  The two last values of the counter give
      the tokens 0 and 1, and so do its two first. */
  predicate Crosses(from: nat, n: nat) {
    var f := from % WORD;
    n >= WORD - 1 || (n >= 3 && f + n > WORD)
  }

  lemma {:induction false} CollideIff(from: nat, n: nat)
    ensures Collide(from, n) <==> Crosses(from, n)
  {
    var f, q := from % WORD, from / WORD;
    assert from == f + q * WORD;
    CollideWraps(f, q, n);
    if Crosses(from, n) {
      CrossesCollide(f, n);
    }
    if Collide(f, n) && n < WORD - 1 {
      var i, j :| f <= i < j < f + n && Token(i) == Token(j);
      TokenValue(i);
      TokenValue(j);
    }
  }

  lemma {:induction false} CrossesCollide(f: nat, n: nat)
    requires f < WORD && Crosses(f, n)
    ensures Collide(f, n)
  {
    var i, j := WORD - 2, WORD;
    if f <= 1 && f + n <= WORD {
      i, j := f, f + WORD - 2;
    } else if f == WORD - 1 {
      i, j := WORD - 1, WORD + 1;
    }
    TokenValue(i);
    TokenValue(j);
    assert f <= i < j < f + n && Token(i) == Token(j);
  }

  /** In the queue two requests share a token if and only if the requests in it lie so. */
  lemma {:induction false} QueueCollides(fs: NfsFs)
    requires fs.Valid()
    ensures (exists i, j :: 0 <= i < j < |fs.queue| && fs.queue[i].token == fs.queue[j].token) <==>
            Crosses(|fs.completed|, |fs.queue|)
  {
    hide Token, Crosses;
    var from, n := |fs.completed|, |fs.queue|;
    CollideIff(from, n);
    if Collide(from, n) {
      var i, j :| from <= i < j < from + n && Token(i) == Token(j);
      assert fs.queue[i - from].token == fs.queue[j - from].token;
    }
    if i, j :| 0 <= i < j < |fs.queue| && fs.queue[i].token == fs.queue[j].token {
      assert Token(from + i) == Token(from + j);
    }
  }

  // ---------------------------------------------------------------- the queue

  datatype Event = Submit(kind: Kind) | Callback(reply: Reply)

  /** A directory is read from its first entry. */
  ghost function FromStart(kind: Kind): Kind {
    if kind.DIR? then DIR(kind.pos, kind.nbyte, 0) else kind
  }

  /** A call to the server: the request it is made for, and how far that has come */
  datatype Call = Call(id: nat, kind: Kind)

  class NfsFs {
    var queue: seq<Request>
    var tok: nat
    var calls: seq<nat>                   // the tokens of the calls that are out
    var sent: seq<Call>                   // all calls made so far
    var submitted: nat                    // requests so far; they are known by their number
    var completed: seq<(nat, Result)>

    /** Requests complete in the order they came, each once; one call is out while the queue is not
        empty, that of the request at the head, and none otherwise. */
    ghost predicate Valid()
      reads this
    {
      QueueOk() && calls == if |queue| == 0 then [] else [queue[0].token]
    }

    /** The same without the calls */
    ghost predicate QueueOk()
      reads this
    {
      && tok == submitted % WORD && |completed| + |queue| == submitted
      && (forall i :: 0 <= i < |completed| ==> completed[i].0 == i)
      && (forall i :: 0 <= i < |queue| ==> queue[i].id == |completed| + i && queue[i].token == Token(queue[i].id))
      && (forall i :: 0 <= i < |queue| && queue[i].kind.DIR? ==> queue[i].kind.cpos <= queue[i].kind.pos)
    }

    constructor ()
      ensures Valid() && submitted == 0 && queue == [] && completed == [] && sent == []
    {
      queue, tok, calls, sent, submitted, completed := [], 0, [], [], 0, [];
    }

    method NewToken() returns (token: nat)
      requires Valid()
      modifies this`tok
      ensures token == Token(submitted) && tok == (submitted + 1) % WORD
    {
      token := tok % (NULL_TOKEN - 1);
      tok := (tok + 1) % WORD;
      Wraps(submitted);
    }

    /** run_request: one more call goes out. */
    method RunRequest(rq: Request)
      modifies this`calls, this`sent
      ensures calls == old(calls) + [rq.token] && sent == old(sent) + [Call(rq.id, rq.kind)]
    {
      calls, sent := calls + [rq.token], sent + [Call(rq.id, rq.kind)];
    }

    /** check_request: the request is run only if it is at the head. */
    method CheckRequest(rq: Request) returns (run: bool)
      requires |queue| > 0
      modifies this`calls, this`sent
      ensures run <==> queue[0].id == rq.id
      ensures run ==> calls == old(calls) + [queue[0].token] && sent == old(sent) + [Call(queue[0].id, queue[0].kind)]
      ensures !run ==> calls == old(calls) && sent == old(sent)
    {
      if queue[0].id != rq.id {
        return false;
      }
      RunRequest(queue[0]);
      run := true;
    }

    /** create_request and check_request: into the queue, and out to the server if it is alone. */
    method Create(kind: Kind) returns (id: nat)
      requires Valid()
      modifies this
      ensures Valid() && id == old(submitted) && submitted == id + 1 && completed == old(completed)
      ensures queue == old(queue) + [Request(id, Token(id), FromStart(kind))]
      ensures queue[|old(queue)|].kind == if kind.DIR? then DIR(kind.pos, kind.nbyte, 0) else kind
      ensures |old(queue)| > 0 ==> calls == old(calls) && sent == old(sent)
      ensures |old(queue)| == 0 ==> calls == [Token(id)] && sent == old(sent) + [Call(id, FromStart(kind))]
    {
      var token := NewToken();
      id := submitted;
      submitted := submitted + 1;
      var rq := Request(id, token, if kind.DIR? then DIR(kind.pos, kind.nbyte, 0) else kind);
      queue := queue + [rq];
      var run := CheckRequest(rq);
    }

    /** get_request: the first request with the token, by its place; -1 if there is none. */
    method GetRequest(token: nat) returns (k: int)
      ensures k == -1 ==> forall i :: 0 <= i < |queue| ==> queue[i].token != token
      ensures k != -1 ==>
        0 <= k < |queue| && queue[k].token == token && forall i :: 0 <= i < k ==> queue[i].token != token
    {
      k := 0;
      while k < |queue|
        invariant 0 <= k <= |queue| && forall i :: 0 <= i < k ==> queue[i].token != token
      {
        if queue[k].token == token {
          return;
        }
        k := k + 1;
      }
      k := -1;
    }

    /** The answer to call number `c` of those that are out.  The request at the head goes on with
        another call under the same token, or completes and the next one is run.  That holds even
        while another request in the queue has the same token. */
    method Answer(c: nat, reply: Reply)
      requires Valid() && c < |calls|
      modifies this
      ensures Valid() && submitted == old(submitted) && |old(queue)| > 0
      ensures Unfinished(old(queue[0].kind), reply) ==>
        var rq := old(queue[0]).(kind := Advanced(old(queue[0].kind), reply));
        && queue == [rq] + old(queue)[1..] && completed == old(completed) && sent == old(sent) + [Call(rq.id, rq.kind)]
      ensures !Unfinished(old(queue[0].kind), reply) ==>
        && queue == old(queue)[1..]
        && completed == old(completed) + [(old(queue[0].id), Answered(old(queue[0].kind), reply))]
        && sent == old(sent) + if |queue| > 0 then [Call(queue[0].id, queue[0].kind)] else []
    {
      hide Token, Unfinished, Advanced, Answered;
      var token := calls[c];
      calls := calls[..c] + calls[c + 1..];
      var k := GetRequest(token);
      assert queue[0].token == token && k == 0;
      var rq := queue[k];
      var o := Handle(rq.kind, reply);
      match o {
        case Again(kind) =>
          StaysBehind(rq.kind, reply);
          queue := queue[k := rq.(kind := kind)];
          RunRequest(queue[k]);
        case Done(result) =>
          completed := completed + [(rq.id, result)];
          ghost var at := RemoveRequest(rq.token);
      }
    }

    /** remove_request: delete the first request with the token, and run the new head. */
    method RemoveRequest(token: nat) returns (ghost at: int)
      requires exists rq :: rq in queue && rq.token == token
      modifies this`queue, this`calls, this`sent
      ensures 0 <= at < |old(queue)| && old(queue)[at].token == token
      ensures (forall i :: 0 <= i < at ==> old(queue)[i].token != token)
      ensures queue == old(queue)[..at] + old(queue)[at + 1..]
      ensures calls == old(calls) + if |queue| > 0 then [queue[0].token] else []
      ensures sent == old(sent) + if |queue| > 0 then [Call(queue[0].id, queue[0].kind)] else []
    {
      var k := GetRequest(token);
      at := k;
      queue := queue[..k] + queue[k + 1..];
      if |queue| > 0 {
        RunRequest(queue[0]);
      }
    }
  }

  /** A directory request that goes on has not gone past the entry it is after. */
  lemma {:induction false} StaysBehind(kind: Kind, reply: Reply)
    requires Unfinished(kind, reply)
    ensures var k := Advanced(kind, reply); k.DIR? ==> k.cpos <= k.pos
  {
  }

  lemma {:induction false} Wraps(k: nat)
    ensures (k % WORD + 1) % WORD == (k + 1) % WORD
  {
    assert k == WORD * (k / WORD) + k % WORD;
    if k % WORD == WORD - 1 {
      assert k + 1 == WORD * (k / WORD + 1);
    } else {
      assert k + 1 == WORD * (k / WORD) + (k % WORD + 1);
    }
  }

  // ---------------------------------------------------------------- conversations

  /** A request once the answers `rs` have been heard */
  ghost function After(kind: Kind, rs: seq<Reply>): Kind {
    if |rs| == 0 then kind else Advanced(After(kind, rs[..|rs| - 1]), rs[|rs| - 1])
  }

  /** Each of the answers made the request go on. */
  ghost predicate Talks(kind: Kind, rs: seq<Reply>) {
    forall i :: 0 <= i < |rs| ==> Unfinished(After(kind, rs[..i]), rs[i])
  }

  /** The answers to one request, from its first call to the one that ends it */
  ghost predicate Conversation(kind: Kind, rs: seq<Reply>) {
    |rs| > 0 && var n := |rs| - 1; Talks(kind, rs[..n]) && !Unfinished(After(kind, rs[..n]), rs[n])
  }

  /** What the process is told at the end of it */
  ghost function Told(kind: Kind, rs: seq<Reply>): Result
    requires |rs| > 0
  {
    Answered(After(kind, rs[..|rs| - 1]), rs[|rs| - 1])
  }

  /** What has been asked and answered so far: the requests, the conversations that have ended, in
      the order of their requests, and the one under way */
  datatype Log = Log(kinds: seq<Kind>, ended: seq<seq<Reply>>, open: seq<Reply>)

  /** The calls made for a request that has heard `rs` and is not done: its first, and one for each
      answer */
  ghost function Calls(id: nat, kind: Kind, rs: seq<Reply>): seq<Call> {
    seq(|rs| + 1, j requires 0 <= j <= |rs| => Call(id, After(kind, rs[..j])))
  }

  /** The calls made for the first `n` requests, which are done: the last answer is followed by none */
  ghost function CallsDone(l: Log, n: nat): seq<Call>
    requires n <= |l.ended| <= |l.kinds|
  {
    if n == 0 then [] else
      CallsDone(l, n - 1) +
      if |l.ended[n - 1]| == 0 then [] else Calls(n - 1, l.kinds[n - 1], l.ended[n - 1][..|l.ended[n - 1]| - 1])
  }

  /** All calls made, request by request: those of a request begin when the one before it is done. */
  ghost function CallsOf(l: Log): seq<Call>
    requires |l.ended| <= |l.kinds|
  {
    CallsDone(l, |l.ended|) + if |l.ended| < |l.kinds| then Calls(|l.ended|, l.kinds[|l.ended|], l.open) else []
  }

  /** How many answers have been used */
  ghost function Used(l: Log): nat {
    |Concat(l.ended)| + |l.open|
  }

  /** The log after one more event.  An answer when nothing is asked is dropped. */
  ghost function Logged(l: Log, e: Event): Log {
    match e
    case Submit(kind) => l.(kinds := l.kinds + [FromStart(kind)])
    case Callback(reply) =>
      if |l.ended| >= |l.kinds| then l
      else if Unfinished(After(l.kinds[|l.ended|], l.open), reply) then l.(open := l.open + [reply])
      else Log(l.kinds, l.ended + [l.open + [reply]], [])
  }

  ghost function LogOf(events: seq<Event>): Log {
    if |events| == 0 then Log([], [], []) else Logged(LogOf(events[..|events| - 1]), events[|events| - 1])
  }

  /** The requests made, and the answers given */
  ghost function Submitted(events: seq<Event>): seq<Kind> {
    if |events| == 0 then [] else
      var e, rest := events[|events| - 1], Submitted(events[..|events| - 1]);
      if e.Submit? then rest + [FromStart(e.kind)] else rest
  }

  /** The requests as they were asked for */
  ghost function Asked(events: seq<Event>): seq<Kind> {
    if |events| == 0 then [] else
      var e, rest := events[|events| - 1], Asked(events[..|events| - 1]);
      if e.Submit? then rest + [e.kind] else rest
  }

  lemma {:induction false} AskedIs(events: seq<Event>)
    ensures |Submitted(events)| == |Asked(events)|
    ensures forall i :: 0 <= i < |Asked(events)| ==> Submitted(events)[i] == FromStart(Asked(events)[i])
  {
    if |events| > 0 {
      AskedIs(events[..|events| - 1]);
    }
  }

  ghost function Replies(events: seq<Event>): seq<Reply> {
    if |events| == 0 then [] else
      var e, rest := events[|events| - 1], Replies(events[..|events| - 1]);
      if e.Callback? then rest + [e.reply] else rest
  }

  /** The answers come only while a request is unfinished. */
  ghost predicate Prompt(events: seq<Event>) {
    forall n :: 0 <= n < |events| && events[n].Callback? ==>
      |LogOf(events[..n]).ended| < |LogOf(events[..n]).kinds|
  }

  ghost predicate LogOk(l: Log) {
    && |l.ended| <= |l.kinds| && (forall i :: 0 <= i < |l.ended| ==> Conversation(l.kinds[i], l.ended[i]))
    && (if |l.ended| < |l.kinds| then Talks(l.kinds[|l.ended|], l.open) else l.open == [])
  }

  /** The requests are those made, in order, and each has the whole of one conversation: the answers
      are shared out among the requests one after the other. */
  lemma {:induction false} LogSound(events: seq<Event>)
    ensures var l := LogOf(events); LogOk(l) && l.kinds == Submitted(events)
    ensures Prompt(events) ==> var l := LogOf(events); Concat(l.ended) + l.open == Replies(events)
    ensures Used(LogOf(events)) <= |Replies(events)|
  {
    if |events| > 0 {
      var rest, e := events[..|events| - 1], events[|events| - 1];
      LogSound(rest);
      LoggedOk(LogOf(rest), e);
      if e.Callback? && |LogOf(rest).ended| < |LogOf(rest).kinds| {
        LoggedReply(LogOf(rest), e.reply);
      }
      if Prompt(events) {
        PromptRest(events);
        assert e.Callback? ==> events[..|events| - 1] == rest;
      }
    }
  }

  lemma {:induction false} PromptRest(events: seq<Event>)
    requires |events| > 0 && Prompt(events)
    ensures Prompt(events[..|events| - 1])
  {
    var rest := events[..|events| - 1];
    forall n | 0 <= n < |rest| && rest[n].Callback? ensures |LogOf(rest[..n]).ended| < |LogOf(rest[..n]).kinds| {
      assert rest[..n] == events[..n] && rest[n] == events[n];
    }
  }

  lemma {:induction false} LoggedOk(l: Log, e: Event)
    requires LogOk(l)
    ensures LogOk(Logged(l, e))
  {
    hide Unfinished, Advanced;
    if e.Callback? && |l.ended| < |l.kinds| {
      var rs := l.open + [e.reply];
      assert rs[..|l.open|] == l.open;
      forall i | 0 <= i < |l.open| ensures rs[..i] == l.open[..i] && rs[i] == l.open[i] {
      }
    }
  }

  lemma {:induction false} LoggedReply(l: Log, reply: Reply)
    requires |l.ended| < |l.kinds|
    ensures var l' := Logged(l, Callback(reply)); Concat(l'.ended) + l'.open == Concat(l.ended) + l.open + [reply]
  {
    ConcatMore(l.ended, l.open + [reply]);
  }

  /** What is done stays as it was when more is asked. */
  lemma {:induction false} CallsSame(l: Log, l': Log, n: nat)
    requires n <= |l.ended| <= |l.kinds| && n <= |l'.ended| <= |l'.kinds|
    requires forall i :: 0 <= i < n ==> l'.kinds[i] == l.kinds[i] && l'.ended[i] == l.ended[i]
    ensures CallsDone(l', n) == CallsDone(l, n)
  {
    hide Calls;
    if n > 0 {
      CallsSame(l, l', n - 1);
    }
  }

  /** A new request is called at once if no other is pending, and not otherwise. */
  lemma {:induction false} CallsSubmit(l: Log, kind: Kind)
    requires LogOk(l)
    ensures LogOk(Logged(l, Submit(kind)))
    ensures CallsOf(Logged(l, Submit(kind))) ==
            CallsOf(l) + if |l.ended| == |l.kinds| then [Call(|l.ended|, FromStart(kind))] else []
  {
    hide Unfinished, Advanced, Talks, Conversation, Calls, CallsDone;
    var l', n := Logged(l, Submit(kind)), |l.ended|;
    LoggedOk(l, Submit(kind));
    CallsSame(l, l', n);
    if n == |l.kinds| {
      FirstCall(n, FromStart(kind), l.open);
    }
  }

  lemma {:induction false} FirstCall(id: nat, kind: Kind, rs: seq<Reply>)
    requires |rs| == 0
    ensures Calls(id, kind, rs) == [Call(id, kind)]
  {
  }

  /** An answer is followed by a call for the same request, or by the first call for the next one if
      there is one. */
  lemma {:induction false} CallsReply(l: Log, reply: Reply)
    requires LogOk(l) && |l.ended| < |l.kinds|
    ensures var l', n := Logged(l, Callback(reply)), |l.ended|;
      && LogOk(l')
      && CallsOf(l') == CallsOf(l) +
           if |l'.ended| == n then [Call(n, After(l.kinds[n], l'.open))]
           else if n + 1 < |l.kinds| then [Call(n + 1, l.kinds[n + 1])] else []
  {
    hide Unfinished, Advanced, Talks, Conversation, Calls, CallsDone, After;
    var l', n := Logged(l, Callback(reply)), |l.ended|;
    LoggedOk(l, Callback(reply));
    CallsSame(l, l', n);
    if |l'.ended| == n {
      CallsMore(n, l.kinds[n], l.open, reply);
    } else {
      DoneMore(l', n, l.open, reply);
      if n + 1 < |l.kinds| {
        FirstCall(n + 1, l.kinds[n + 1], l'.open);
      }
    }
  }

  lemma {:induction false} DoneMore(l: Log, n: nat, rs: seq<Reply>, r: Reply)
    requires n < |l.ended| <= |l.kinds| && l.ended[n] == rs + [r]
    ensures CallsDone(l, n + 1) == CallsDone(l, n) + Calls(n, l.kinds[n], rs)
  {
    hide Calls;
    assert (rs + [r])[..|rs|] == rs;
  }

  lemma {:induction false} CallsMore(id: nat, kind: Kind, rs: seq<Reply>, r: Reply)
    ensures Calls(id, kind, rs + [r]) == Calls(id, kind, rs) + [Call(id, After(kind, rs + [r]))]
  {
    hide After;
    var a, b := Calls(id, kind, rs + [r]), Calls(id, kind, rs);
    assert (rs + [r])[..|rs| + 1] == rs + [r];
    forall j | 0 <= j <= |rs| ensures a[j] == b[j] {
      assert (rs + [r])[..j] == rs[..j];
    }
  }

  /** The calls made are the answers used, and one more while a request is pending. */
  lemma {:induction false} CallsCount(l: Log)
    requires LogOk(l)
    ensures |CallsOf(l)| == Used(l) + if |l.ended| < |l.kinds| then 1 else 0
  {
    hide Talks, Conversation, After;
    DoneCount(l, |l.ended|);
    assert l.ended[..|l.ended|] == l.ended;
  }

  lemma {:induction false} DoneCount(l: Log, n: nat)
    requires LogOk(l) && n <= |l.ended| <= |l.kinds|
    ensures |CallsDone(l, n)| == |Concat(l.ended[..n])|
  {
    hide LogOk, Calls;
    if n > 0 {
      DoneCount(l, n - 1);
      LogSize(l);
      var rs := l.ended[n - 1];
      var k := |rs| - 1;
      assert rs == rs[..k] + [rs[k]];
      DoneMore(l, n - 1, rs[..k], rs[k]);
      CallsSize(n - 1, l.kinds[n - 1], rs[..k]);
      assert l.ended[..n] == l.ended[..n - 1] + [rs];
      ConcatMore(l.ended[..n - 1], rs);
    }
  }

  lemma {:induction false} CallsSize(id: nat, kind: Kind, rs: seq<Reply>)
    ensures |Calls(id, kind, rs)| == |rs| + 1
  {
  }

  /** The queue holds the requests without an answer yet, its head as far as the conversation under
      way has brought it; the calls made are those of the log. */
  ghost predicate Mirrors(queue: seq<Request>, completed: seq<(nat, Result)>, sent: seq<Call>, l: Log) {
    && |completed| == |l.ended| && |queue| == |l.kinds| - |l.ended| && LogOk(l) && sent == CallsOf(l)
    && (forall i :: 0 <= i < |completed| ==> completed[i] == (i, Told(l.kinds[i], l.ended[i])))
    && (forall i :: 0 <= i < |queue| ==>
          && queue[i].id == |l.ended| + i
          && queue[i].kind == if i == 0 then After(l.kinds[|l.ended|], l.open) else l.kinds[|l.ended| + i])
  }

  lemma {:induction false} MirrorsSubmit(queue: seq<Request>, completed: seq<(nat, Result)>, sent: seq<Call>, l: Log,
      kind: Kind, rq: Request)
    requires Mirrors(queue, completed, sent, l) && rq.kind == FromStart(kind) && rq.id == |completed| + |queue|
    ensures Mirrors(queue + [rq], completed, sent + if |queue| == 0 then [Call(rq.id, rq.kind)] else [],
                    Logged(l, Submit(kind)))
  {
    hide LogOk, Unfinished, Advanced, Told, CallsOf;
    CallsSubmit(l, kind);
    LogSize(l);
  }

  lemma {:induction false} LogSize(l: Log)
    requires LogOk(l)
    ensures |l.ended| == |l.kinds| ==> l.open == []
    ensures forall i :: 0 <= i < |l.ended| ==> |l.ended[i]| > 0
  {
  }

  lemma {:induction false} MirrorsAgain(queue: seq<Request>, completed: seq<(nat, Result)>, sent: seq<Call>, l: Log,
      reply: Reply, rq: Request)
    requires Mirrors(queue, completed, sent, l) && |queue| > 0 && Unfinished(queue[0].kind, reply)
    requires rq == queue[0].(kind := Advanced(queue[0].kind, reply))
    ensures Mirrors([rq] + queue[1..], completed, sent + [Call(rq.id, rq.kind)], Logged(l, Callback(reply)))
  {
    hide LogOk, Unfinished, Advanced, Told, CallsOf;
    CallsReply(l, reply);
    LogSize(l);
    AfterMore(l, reply);
  }

  lemma {:induction false} MirrorsDone(queue: seq<Request>, completed: seq<(nat, Result)>, sent: seq<Call>, l: Log,
      reply: Reply)
    requires Mirrors(queue, completed, sent, l) && |queue| > 0 && !Unfinished(queue[0].kind, reply)
    ensures Mirrors(queue[1..], completed + [(|completed|, Answered(queue[0].kind, reply))],
                    sent + if |queue| > 1 then [Call(queue[1].id, queue[1].kind)] else [], Logged(l, Callback(reply)))
  {
    hide LogOk, Unfinished, Advanced, Told, Answered, CallsOf;
    CallsReply(l, reply);
    LogSize(l);
    LogSize(Logged(l, Callback(reply)));
    AfterMore(l, reply);
  }

  /** Every run of submissions and answers, one answer to each call: the requests complete in the order
      they were made, each exactly once and with the outcome of its own conversation.  Calls are made
      for one request at a time, from its first to its last answer, and there are as many as answers
      used, and one more while a request is pending. */
  method Serve(events: seq<Event>) returns (completed: seq<(nat, Result)>, pending: nat, sent: seq<Call>)
    ensures var l := LogOf(events);
      && LogOk(l) && l.kinds == Submitted(events) && |completed| == |l.ended| && |completed| + pending == |l.kinds|
      && (forall i :: 0 <= i < |completed| ==> completed[i] == (i, Told(l.kinds[i], l.ended[i])))
      && sent == CallsOf(l) && |sent| == Used(l) + if pending > 0 then 1 else 0
    ensures |completed| + pending == |Asked(events)|
    ensures forall i :: 0 <= i < |completed| ==> Right(Asked(events)[i], LogOf(events).ended[i], completed[i].1)
  {
    hide LogOf, LogOk, Submitted, Unfinished, Advanced, Answered, Told, Token, Mirrors, Logged, CallsOf, Used,
         Asked, Right;
    var fs := new NfsFs();
    var n := 0;
    ghost var l := LogOf(events[..n]);
    MirrorsNone(events[..n]);
    while n < |events|
      invariant 0 <= n <= |events| && fs.Valid() && fresh(fs)
      invariant l == LogOf(events[..n]) && Mirrors(fs.queue, fs.completed, fs.sent, l)
    {
      ghost var queue, done, calls, e := fs.queue, fs.completed, fs.sent, events[n];
      LogMore(events, n);
      match events[n] {
        case Submit(kind) =>
          var id := fs.Create(kind);
          MirrorsSubmit(queue, done, calls, l, kind, fs.queue[|queue|]);
          assert fs.sent == calls + if |queue| == 0 then [Call(id, FromStart(kind))] else [];
        case Callback(reply) =>
          if |fs.calls| > 0 {
            fs.Answer(0, reply);
            if Unfinished(queue[0].kind, reply) {
              MirrorsAgain(queue, done, calls, l, reply, fs.queue[0]);
            } else {
              MirrorsDone(queue, done, calls, l, reply);
              assert |queue| > 1 ==> fs.queue[0] == queue[1];
            }
          } else {
            NobodyAsks(queue, done, calls, l, reply);
          }
      }
      l, n := Logged(l, e), n + 1;
    }
    assert events[..n] == events;
    LogSound(events);
    completed, pending, sent := fs.completed, |fs.queue|, fs.sent;
    MirrorsEnd(fs.queue, completed, sent, l);
    AskedIs(events);
    forall i | 0 <= i < |completed| ensures Right(Asked(events)[i], l.ended[i], completed[i].1) {
      LogTalks(l, i);
      ToldRight(Asked(events)[i], l.ended[i]);
    }
  }

  lemma {:induction false} LogTalks(l: Log, i: nat)
    requires LogOk(l) && i < |l.ended|
    ensures Conversation(l.kinds[i], l.ended[i])
  {
  }

  /** The answer to what was asked: for a directory the entry at the position asked for, among the names
      the server gave out; for anything else success, or the failure the server reported last. */
  ghost predicate Right(kind: Kind, rs: seq<Reply>, result: Result) {
    && |rs| > 0
    && var last := rs[|rs| - 1];
       result == if kind.DIR? then EntryAt(Names(rs), last, kind.pos, kind.nbyte)
                 else if last.status != NFS_OK then FAILED(last.status) else OK
  }

  lemma {:induction false} ToldRight(kind: Kind, rs: seq<Reply>)
    requires Conversation(FromStart(kind), rs)
    ensures Right(kind, rs, Told(FromStart(kind), rs))
  {
    hide Talks, Unfinished, EntryAt, Names;
    if kind.DIR? {
      DirOutcome(kind.pos, kind.nbyte, rs);
    } else {
      PlainAfter(kind, rs[..|rs| - 1]);
    }
  }

  lemma {:induction false} PlainAfter(kind: Kind, rs: seq<Reply>)
    requires !kind.DIR?
    ensures After(kind, rs) == kind
  {
    if |rs| > 0 {
      PlainAfter(kind, rs[..|rs| - 1]);
    }
  }

  lemma {:induction false} NobodyAsks(queue: seq<Request>, completed: seq<(nat, Result)>, sent: seq<Call>, l: Log,
      reply: Reply)
    requires Mirrors(queue, completed, sent, l) && |queue| == 0
    ensures Logged(l, Callback(reply)) == l
  {
  }

  lemma {:induction false} MirrorsEnd(queue: seq<Request>, completed: seq<(nat, Result)>, sent: seq<Call>, l: Log)
    requires Mirrors(queue, completed, sent, l)
    ensures |completed| == |l.ended| && |completed| + |queue| == |l.kinds| && sent == CallsOf(l)
    ensures forall i :: 0 <= i < |completed| ==> |l.ended[i]| > 0 && completed[i] == (i, Told(l.kinds[i], l.ended[i]))
    ensures |sent| == Used(l) + if |queue| > 0 then 1 else 0
  {
    hide LogOk, CallsOf, Told;
    LogSize(l);
    CallsCount(l);
  }

  lemma {:induction false} LogMore(events: seq<Event>, n: nat)
    requires n < |events|
    ensures LogOf(events[..n + 1]) == Logged(LogOf(events[..n]), events[n])
  {
    assert events[..n + 1][..n] == events[..n];
  }

  lemma {:induction false} AfterMore(l: Log, reply: Reply)
    requires |l.ended| < |l.kinds|
    ensures var kind, rs := l.kinds[|l.ended|], l.open + [reply];
      && After(kind, rs) == Advanced(After(kind, l.open), reply)
      && Told(kind, rs) == Answered(After(kind, l.open), reply)
  {
    assert (l.open + [reply])[..|l.open|] == l.open;
  }

  lemma {:induction false} MirrorsNone(events: seq<Event>)
    requires |events| == 0
    ensures Mirrors([], [], [], LogOf(events))
  {
  }

  // ---------------------------------------------------------------- directory listings

  datatype Vnode = Vnode(path: Name, special: bool)

  ghost function Specials(vnodes: seq<Vnode>): seq<Name> {
    if |vnodes| == 0 then [] else
      Specials(vnodes[..|vnodes| - 1]) + (if vnodes[|vnodes| - 1].special then [vnodes[|vnodes| - 1].path] else [])
  }

  /** The names on the pages that the server gave out */
  ghost function Names(rs: seq<Reply>): seq<Name> {
    if |rs| == 0 then [] else
      Names(rs[..|rs| - 1]) + (if rs[|rs| - 1].status == NFS_OK then rs[|rs| - 1].entries else [])
  }

  /** Entry `pos` of the names listed, or else how the listing ended: at its end, or with the failure
      that the server reported in `last` */
  ghost function EntryAt(names: seq<Name>, last: Reply, pos: nat, nbyte: nat): Result {
    if pos < |names| then Found(names[pos], nbyte)
    else if last.status != NFS_OK then FAILED(last.status)
    else EOF
  }

  /** The answers of a server that gives out a directory in pages as it likes, some of them empty
      perhaps: a positive cookie says that another page follows, and a failure ends the listing. */
  ghost predicate Pages(rs: seq<Reply>) {
    && |rs| > 0
    && (forall i :: 0 <= i < |rs| - 1 ==> rs[i].status == NFS_OK && rs[i].nextCookie > 0)
    && (rs[|rs| - 1].status != NFS_OK || rs[|rs| - 1].nextCookie <= 0)
  }

  lemma {:induction false} NamesMore(rs: seq<Reply>, i: nat)
    requires i < |rs|
    ensures Names(rs[..i + 1]) == Names(rs[..i]) + (if rs[i].status == NFS_OK then rs[i].entries else [])
  {
    assert rs[..i + 1][..i] == rs[..i];
  }

  /** The first pages are the beginning of the whole listing. */
  lemma {:induction false} NamesAt(rs: seq<Reply>, i: nat)
    requires i <= |rs|
    ensures Names(rs[..i]) <= Names(rs)
    decreases |rs| - i
  {
    if i < |rs| {
      NamesMore(rs, i);
      NamesAt(rs, i + 1);
    } else {
      assert rs[..i] == rs;
    }
  }

  /** nfsfs_getdirent with all its callbacks */
  method NfsGetdirent(rs: seq<Reply>, pos: nat, nbyte: nat) returns (r: Result)
    requires Pages(rs)
    ensures r == EntryAt(Names(rs), rs[|rs| - 1], pos, nbyte)
  {
    var i, cpos := 0, 0;
    assert rs[..0] == [];
    while true
      invariant 0 <= i < |rs| && cpos == |Names(rs[..i])| && cpos <= pos
      decreases |rs| - i
    {
      var o := GetdirentCb(pos, nbyte, cpos, rs[i]);
      NamesMore(rs, i);
      if o.Done? {
        NamesAt(rs, i + 1);
        assert i + 1 == |rs| ==> rs[..i + 1] == rs;
        return o.result;
      }
      cpos := o.kind.cpos;
      i := i + 1;
    }
  }

  /** A directory request gets its entry by way of the queue too: the outcome of its conversation is
      the entry asked for among the names it was given. */
  lemma {:induction false} DirOutcome(pos: nat, nbyte: nat, rs: seq<Reply>)
    requires Conversation(DIR(pos, nbyte, 0), rs)
    ensures Told(DIR(pos, nbyte, 0), rs) == EntryAt(Names(rs), rs[|rs| - 1], pos, nbyte)
  {
    var n := |rs| - 1;
    DirTalks(pos, nbyte, rs[..n]);
    NamesMore(rs, n);
    assert rs[..n + 1] == rs;
  }

  lemma {:induction false} DirTalks(pos: nat, nbyte: nat, rs: seq<Reply>)
    requires Talks(DIR(pos, nbyte, 0), rs)
    ensures After(DIR(pos, nbyte, 0), rs) == DIR(pos, nbyte, |Names(rs)|) && |Names(rs)| <= pos
  {
    if |rs| > 0 {
      var rest := rs[..|rs| - 1];
      forall i | 0 <= i < |rest| ensures Unfinished(After(DIR(pos, nbyte, 0), rest[..i]), rest[i]) {
        assert rest[..i] == rs[..i];
      }
      DirTalks(pos, nbyte, rest);
      assert Unfinished(After(DIR(pos, nbyte, 0), rest), rs[|rs| - 1]);
    }
  }

  /** vfs_getdirent: the special files come first, then the NFS directory. */
  method Getdirent(vnodes: seq<Vnode>, rs: seq<Reply>, pos: int, nbyte: int) returns (r: Result)
    requires Pages(rs)
    ensures r == if pos < 0 || nbyte <= 0 then ERROR
                 else EntryAt(Specials(vnodes) + Names(rs), rs[|rs| - 1], pos, nbyte)
  {
    if pos < 0 || nbyte <= 0 {
      return ERROR;
    }
    var pos2, i := 0, 0;
    assert vnodes[..0] == [];
    while i < |vnodes|
      invariant 0 <= i <= |vnodes| && pos2 == |Specials(vnodes[..i])| && pos2 <= pos
    {
      SpecialsMore(vnodes, i);
      if vnodes[i].special {
        if pos == pos2 {
          SpecialsAt(vnodes, i + 1);
          assert (Specials(vnodes) + Names(rs))[pos] == vnodes[i].path;
          if |vnodes[i].path| < nbyte {
            return ENTRY(vnodes[i].path);
          }
          return NOMEM;
        }
        pos2 := pos2 + 1;
      }
      i := i + 1;
    }
    assert vnodes[..i] == vnodes;
    r := NfsGetdirent(rs, pos - pos2, nbyte);
  }

  lemma {:induction false} SpecialsMore(vnodes: seq<Vnode>, i: nat)
    requires i < |vnodes|
    ensures Specials(vnodes[..i + 1]) == Specials(vnodes[..i]) + (if vnodes[i].special then [vnodes[i].path] else [])
  {
    assert vnodes[..i + 1][..i] == vnodes[..i];
  }

  lemma {:induction false} SpecialsAt(vnodes: seq<Vnode>, i: nat)
    requires i <= |vnodes|
    ensures Specials(vnodes[..i]) <= Specials(vnodes)
    decreases |vnodes| - i
  {
    if i < |vnodes| {
      SpecialsMore(vnodes, i);
      SpecialsAt(vnodes, i + 1);
    } else {
      assert vnodes[..i] == vnodes;
    }
  }
}
