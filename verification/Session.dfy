// The management session: which messages reach a handler, and under which key.
module Session {
  import C = Checksum
  import opened LinearProbing
  import opened Messages
  import opened Potp

  const FM_M_SYNC: nat := 0
  const FM_M_SYNCACK: nat := 1
  const FM_M_WRITE: nat := 2
  const FM_M_REBOOT: nat := 4
  const FM_M_REBOOTACK: nat := 5
  const FM_M_NEWKEY: nat := 6
  const FM_M_NEWKEYACK: nat := 7
  const FM_M_QUERY: nat := 8
  const FM_M_LOAD: nat := 10
  const FM_M_ERROR: nat := 12
  const FM_M_RELEASE: nat := 13
  const FM_M_STATISTICS: nat := 15

  const FM_ERROR_INSECURE: bv8 := 0
  const FM_ERROR_SECURE: bv8 := 1
  const FM_ERROR_PASSFILE: bv8 := 2
  const FM_ERROR_PASSWRITE: bv8 := 3
  const FM_ERROR_LOSTSYNC: bv8 := 11

  const PASSWORD_LENGTH: nat := 12
  const SYNC_SIZE: nat := 16

  // A datagram: type, flags, and the rest, from the checksum on.
  datatype Message = Message(kind: nat, flags: nat, rest: seq<bv8>)

  // `password` is the 12-byte buffer.
  datatype State = State(passwordLoaded: bool, password: seq<bv8>, keyValid: bool, key: Key, rebooting: bool)

  datatype WriteResult = Written | CannotOpen | CannotWrite

  // What the surroundings contribute to handling one message: the random words of
  // the messages it sends, the clock-seeded generator of a SYNC, the outcome of
  // writing the password file, and the replies of the other handlers.
  datatype Env = Env(random: nat -> Word, clock: Key, written: WriteResult, replies: seq<(nat, seq<bv8>)>)

  // What handling one message did besides changing the state.
  datatype Effect = Effect(sent: seq<Message>, handled: Option<(nat, seq<bv8>)>)

  function Flags(s: State): nat { if s.passwordLoaded then 1 else 0 }

  // deliverPacket: errors, and everything while no key is valid, go in the clear.
  function Deliver(s: State, kind: nat, body: seq<bv8>, random: Word): (State, Message) {
    if s.keyValid && kind != FM_M_ERROR then
      var (after, rest) := Seal(s.key, random, body);
      (s.(key := after), Message(kind, Flags(s), rest))
    else
      (s, Message(kind, Flags(s), Header(random, body) + body))
  }

  function DeliverAll(s: State, replies: seq<(nat, seq<bv8>)>, random: nat -> Word, j: nat): (r: (State, seq<Message>))
    ensures r.0 == s.(key := r.0.key)
    decreases |replies|
  {
    if replies == [] then (s, [])
    else
      var (t, m) := Deliver(s, replies[0].0, replies[0].1, random(j));
      var (u, rest) := DeliverAll(t, replies[1..], random, j + 1);
      (u, [m] + rest)
  }

  function Error(s: State, code: bv8, env: Env): (State, Effect) {
    var (t, m) := Deliver(s, FM_M_ERROR, [code], env.random(0));
    (t, Effect([m], None))
  }

  // ----- Handlers

  // The password: the buffer up to its first zero byte.
  function UpToZero(b: seq<bv8>): (t: seq<bv8>)
    ensures t <= b && 0 !in t && (|t| < |b| ==> b[|t|] == 0)
  {
    if b == [] || b[0] == 0 then [] else [b[0]] + UpToZero(b[1..])
  }

  // strncpy of at most `n` bytes into the front of `buffer`, zero filled.
  function CopyInto(buffer: seq<bv8>, source: seq<bv8>, n: nat): (r: seq<bv8>)
    requires n <= |buffer|
    ensures |r| == |buffer| && r[n..] == buffer[n..]
    ensures forall i {:trigger r[i]} :: 0 <= i < n ==>
      r[i] == if i < |UpToZero(source)| then UpToZero(source)[i] else 0
  {
    var text := UpToZero(source);
    var front := if |text| >= n then text[..n] else text + seq(n - |text|, _ => 0);
    front + buffer[n..]
  }

  function HandleSync(s: State, body: seq<bv8>, env: Env): (State, seq<Message>)
    requires |body| >= SYNC_SIZE
  {
    var password := UpToZero(s.password);
    var (mine, offer) := ClientInit(password, env.clock);
    var (t, m) := Deliver(s, FM_M_SYNCACK, SyncBytes(offer), env.random(0));
    var theirs := ServerInit(password, SyncOf(body));
    (t.(key := XorKeys(mine, theirs), keyValid := true), [m])
  }

  function HandleReboot(s: State, env: Env): (State, seq<Message>) {
    var (t, m) := Deliver(s, FM_M_REBOOTACK, [], env.random(0));
    (t.(rebooting := true), [m])
  }

  function HandleNewkey(s: State, body: seq<bv8>, env: Env): (State, seq<Message>)
    requires |s.password| == PASSWORD_LENGTH
  {
    match env.written
    case CannotOpen => var (t, m) := Deliver(s, FM_M_ERROR, [FM_ERROR_PASSFILE], env.random(0)); (t, [m])
    case CannotWrite => var (t, m) := Deliver(s, FM_M_ERROR, [FM_ERROR_PASSWRITE], env.random(0)); (t, [m])
    case Written =>
      var (t, m) := Deliver(s, FM_M_NEWKEYACK, [], env.random(0));
      var n := if PASSWORD_LENGTH < |body| then PASSWORD_LENGTH else |body|;
      (t.(password := CopyInto(s.password, body, n), passwordLoaded := true), [m])
  }

  predicate OtherHandler(kind: nat) {
    kind == FM_M_QUERY || kind == FM_M_LOAD || kind == FM_M_WRITE || kind == FM_M_RELEASE || kind == FM_M_STATISTICS
  }

  function Dispatch(s: State, kind: nat, body: seq<bv8>, env: Env): (State, Effect)
    requires |s.password| == PASSWORD_LENGTH && (kind == FM_M_SYNC ==> |body| >= SYNC_SIZE)
  {
    if kind == FM_M_SYNC then var (t, sent) := HandleSync(s, body, env); (t, Effect(sent, Some((kind, body))))
    else if kind == FM_M_REBOOT then var (t, sent) := HandleReboot(s, env); (t, Effect(sent, Some((kind, body))))
    else if kind == FM_M_NEWKEY then var (t, sent) := HandleNewkey(s, body, env); (t, Effect(sent, Some((kind, body))))
    else if OtherHandler(kind) then
      var (t, sent) := DeliverAll(s, env.replies, env.random, 0);
      (t, Effect(sent, Some((kind, body))))
    else (s, Effect([], None))
  }

  // A whole header arrived, and a SYNC message carries a SYNC body.
  predicate WellSized(m: Message) {
    |m.rest| >= HEADER && (m.kind == FM_M_SYNC ==> |m.rest| >= HEADER + SYNC_SIZE)
  }

  // filtMessage.
  function Handle(s: State, m: Message, env: Env): (r: (State, Effect))
    requires WellSized(m) && |s.password| == PASSWORD_LENGTH
    ensures |r.0.password| == PASSWORD_LENGTH
  {
    if s.rebooting then (s, Effect([], None))
    else if m.flags != Flags(s) then Error(s, if s.passwordLoaded then FM_ERROR_SECURE else FM_ERROR_INSECURE, env)
    else if !s.passwordLoaded then
      if m.kind == FM_M_SYNC then Error(s, FM_ERROR_INSECURE, env)
      else Dispatch(s, m.kind, m.rest[HEADER..], env)
    else if m.kind == FM_M_SYNC then Dispatch(s, m.kind, m.rest[HEADER..], env)
    else if !s.keyValid then Error(s, FM_ERROR_LOSTSYNC, env)
    else
      var (after, body) := Open(s.key, m.rest);
      if body == None then Error(s.(key := after, keyValid := false), FM_ERROR_LOSTSYNC, env)
      else Dispatch(s.(key := after), m.kind, body.value, env)
  }

  // ----- Whole runs

  function Run(s: State, inputs: seq<(Message, Env)>): (r: (State, seq<Effect>))
    requires |s.password| == PASSWORD_LENGTH && forall x :: x in inputs ==> WellSized(x.0)
    ensures |r.0.password| == PASSWORD_LENGTH && |r.1| == |inputs|
    decreases |inputs|
  {
    if inputs == [] then (s, [])
    else
      var (t, effect) := Handle(s, inputs[0].0, inputs[0].1);
      var (u, effects) := Run(t, inputs[1..]);
      (u, [effect] + effects)
  }

  // A valid session key implies a loaded password.
  predicate Secure(s: State) {
    |s.password| == PASSWORD_LENGTH && (s.keyValid ==> s.passwordLoaded)
  }

  lemma HandleKeeps(s: State, m: Message, env: Env)
    requires Secure(s) && WellSized(m)
    ensures var (t, effect) := Handle(s, m, env);
      && Secure(t)
      && (s.passwordLoaded ==> t.passwordLoaded)
      && (s.rebooting ==> t == s && effect == Effect([], None))
  {
  }

  // Along any run the key stays tied to a password, a loaded password stays
  // loaded, and after a reboot request nothing changes, is sent or is handled.
  lemma {:induction false} RunKeeps(s: State, inputs: seq<(Message, Env)>)
    requires Secure(s) && forall x :: x in inputs ==> WellSized(x.0)
    ensures var (t, effects) := Run(s, inputs);
      && Secure(t)
      && (s.passwordLoaded ==> t.passwordLoaded)
      && (s.rebooting ==> t == s && forall i :: 0 <= i < |effects| ==> effects[i] == Effect([], None))
    decreases |inputs|
  {
    if inputs != [] {
      HandleKeeps(s, inputs[0].0, inputs[0].1);
      RunKeeps(Handle(s, inputs[0].0, inputs[0].1).0, inputs[1..]);
    }
  }

  // With a password loaded, a handler other than SYNC's runs exactly when no reboot
  // is pending, the message is in secure mode, a key is valid, and the decrypted
  // message verifies; it is given the decrypted body.
  lemma OnlyVerifiedMessages(s: State, m: Message, env: Env)
    requires Secure(s) && WellSized(m) && s.passwordLoaded && m.kind != FM_M_SYNC
    ensures Handle(s, m, env).1.handled ==
      if !s.rebooting && m.flags == 1 && s.keyValid && C.ChkSum(Numbers(Cipher(s.key, m.rest)), None) == 0 &&
         (m.kind == FM_M_REBOOT || m.kind == FM_M_NEWKEY || OtherHandler(m.kind))
      then Some((m.kind, Cipher(s.key, m.rest)[HEADER..])) else None
  {
  }

  // Why a message that is not handled was refused: nothing is said while rebooting
  // or to an unknown type; otherwise exactly one error goes out, in the clear, even
  // under a valid key.
  lemma RefusalReason(s: State, m: Message, env: Env)
    requires Secure(s) && WellSized(m) && Handle(s, m, env).1.handled == None
    ensures var sent := Handle(s, m, env).1.sent;
      if s.rebooting then sent == []
      else if m.flags != Flags(s) then
        IsError(sent, s, if s.passwordLoaded then FM_ERROR_SECURE else FM_ERROR_INSECURE, env)
      else if !s.passwordLoaded && m.kind == FM_M_SYNC then IsError(sent, s, FM_ERROR_INSECURE, env)
      else if s.passwordLoaded && !(s.keyValid && C.ChkSum(Numbers(Cipher(s.key, m.rest)), None) == 0) then
        IsError(sent, s, FM_ERROR_LOSTSYNC, env)
      else sent == []
  {
    if s.passwordLoaded && s.keyValid {
      OnlyVerifiedOpens(s.key, m.rest);
    }
  }

  predicate IsError(sent: seq<Message>, s: State, code: bv8, env: Env) {
    sent == [Message(FM_M_ERROR, Flags(s), Header(env.random(0), [code]) + [code])]
  }

  lemma OnlyVerifiedOpens(k: Key, rest: seq<bv8>)
    requires |rest| >= HEADER
    ensures Open(k, rest).1.Some? <==> C.ChkSum(Numbers(Cipher(k, rest)), None) == 0
  {
  }

  // A message that fails the check invalidates the key.
  lemma FailedCheck(s: State, m: Message, env: Env)
    requires Secure(s) && WellSized(m) && s.passwordLoaded && m.kind != FM_M_SYNC && !s.rebooting && m.flags == 1
    requires C.ChkSum(Numbers(Cipher(s.key, m.rest)), None) != 0
    ensures !Handle(s, m, env).0.keyValid && Handle(s, m, env).1.handled == None
  {
  }

  // Without a valid key nothing is handled, and no key becomes valid, before the
  // next SYNC message.
  lemma {:induction false} LockedUntilSync(s: State, inputs: seq<(Message, Env)>)
    requires Secure(s) && s.passwordLoaded && !s.keyValid
    requires forall x :: x in inputs ==> WellSized(x.0) && x.0.kind != FM_M_SYNC
    ensures !Run(s, inputs).0.keyValid
    ensures forall i :: 0 <= i < |inputs| ==> Run(s, inputs).1[i].handled == None
    decreases |inputs|
  {
    if inputs != [] {
      HandleKeeps(s, inputs[0].0, inputs[0].1);
      OnlyVerifiedMessages(s, inputs[0].0, inputs[0].1);
      LockedUntilSync(Handle(s, inputs[0].0, inputs[0].1).0, inputs[1..]);
    }
  }

  // ----- Agreement with the manager

  // What the manager reads in the answer to a SYNC, which comes in the clear, or
  // sealed under the key that was valid before.
  function Answer(s: State, m: Message): Option<seq<bv8>> {
    if |m.rest| < HEADER then None else if s.keyValid then Open(s.key, m.rest).1 else Some(m.rest[HEADER..])
  }

  lemma AnswerRead(s: State, kind: nat, body: seq<bv8>, random: Word)
    requires kind != FM_M_ERROR && |body| + HEADER < 0x1_0000
    ensures Answer(s, Deliver(s, kind, body, random).1) == Some(body)
  {
    SealOpens(s.key, random, body);
    assert (Header(random, body) + body)[HEADER..] == body;
  }

  // A manager that sends a SYNC: the filter answers, under the old key if there is
  // one, and from the answer the manager computes the filter's new session key.
  lemma SyncAgrees(s: State, half: Key, spin: bv16, random: Word, env: Env)
    requires Secure(s) && s.passwordLoaded && !s.rebooting
    ensures var password := UpToZero(s.password);
      var body := SyncBytes(Offer(password, spin, half));
      var (t, effect) := Handle(s, Message(FM_M_SYNC, 1, Header(random, body) + body), env);
      && Secure(t) && t.keyValid && !t.rebooting && t.password == s.password
      && |effect.sent| == 1 && effect.sent[0].kind == FM_M_SYNCACK
      && var got := Answer(s, effect.sent[0]);
         && got.Some? && |got.value| == SYNC_SIZE
         && t.key == XorKeys(half, ServerInit(password, SyncOf(got.value)))
  {
    var password := UpToZero(s.password);
    var mine := Offer(password, spin, half);
    var body := SyncBytes(mine);
    var rest := Header(random, body) + body;
    assert rest[HEADER..] == body;
    SyncRoundTrip(mine);
    ServerRecovers(password, spin, half);
    var (theirs, offer) := ClientInit(password, env.clock);
    AnswerRead(s, FM_M_SYNCACK, SyncBytes(offer), env.random(0));
    SyncRoundTrip(offer);
    ServerRecovers(password, SpinCount(RandLong(env.clock)), theirs);
    XorKeyUndoes(theirs, half);
  }

  // A message the manager seals under the shared key is handled with its body, and
  // both ends' keys then agree again.
  lemma SealedIsHandled(s: State, kind: nat, random: Word, body: seq<bv8>, env: Env)
    requires Secure(s) && s.keyValid && !s.rebooting && OtherHandler(kind) && |body| + HEADER < 0x1_0000
    ensures var (after, rest) := Seal(s.key, random, body);
      && Handle(s, Message(kind, 1, rest), env).1.handled == Some((kind, body))
      && Handle(s, Message(kind, 1, rest), env).0 == DeliverAll(s.(key := after), env.replies, env.random, 0).0
  {
    SealOpens(s.key, random, body);
  }

  // ----- A conversation of requests and answers

  // The manager's end of a message: an error is in the clear, all else is opened.
  function Receive(k: Key, m: Message): (Key, Option<(nat, seq<bv8>)>) {
    if m.kind == FM_M_ERROR then (k, if |m.rest| >= HEADER then Some((m.kind, m.rest[HEADER..])) else None)
    else
      var (after, body) := Open(k, m.rest);
      (after, if body.Some? then Some((m.kind, body.value)) else None)
  }

  function ReceiveAll(k: Key, sent: seq<Message>): (r: (Key, seq<Option<(nat, seq<bv8>)>>))
    ensures |r.1| == |sent|
    decreases |sent|
  {
    if sent == [] then (k, [])
    else
      var (after, got) := Receive(k, sent[0]);
      var (last, more) := ReceiveAll(after, sent[1..]);
      (last, [got] + more)
  }

  predicate Fits(body: seq<bv8>) { |body| + HEADER < 0x1_0000 }

  // Every reply arrives, with its type and its body.
  predicate Received(got: seq<Option<(nat, seq<bv8>)>>, replies: seq<(nat, seq<bv8>)>) {
    |got| == |replies| && forall i {:trigger got[i]} :: 0 <= i < |got| ==> got[i] == Some(replies[i])
  }

  lemma DeliveredArrives(s: State, kind: nat, body: seq<bv8>, random: Word)
    requires s.keyValid && Fits(body)
    ensures var (t, m) := Deliver(s, kind, body, random);
      t == s.(key := t.key) && Receive(s.key, m) == (t.key, Some((kind, body)))
  {
    SealOpens(s.key, random, body);
    assert (Header(random, body) + body)[HEADER..] == body;
  }

  // The first of several replies is delivered and received; the rest follows from
  // the state and the key it leaves.
  lemma FirstArrives(s: State, replies: seq<(nat, seq<bv8>)>, random: nat -> Word, j: nat)
      returns (t: State, rest: seq<Message>)
    requires s.keyValid && replies != [] && Fits(replies[0].1)
    ensures t.keyValid && rest == DeliverAll(t, replies[1..], random, j + 1).1
    ensures DeliverAll(s, replies, random, j).0 == DeliverAll(t, replies[1..], random, j + 1).0
    ensures var (k, got) := ReceiveAll(t.key, rest);
      ReceiveAll(s.key, DeliverAll(s, replies, random, j).1) == (k, [Some(replies[0])] + got)
  {
    DeliveredArrives(s, replies[0].0, replies[0].1, random(j));
    t := Deliver(s, replies[0].0, replies[0].1, random(j)).0;
    rest := DeliverAll(t, replies[1..], random, j + 1).1;
    assert DeliverAll(s, replies, random, j).1[1..] == rest;
  }

  lemma {:induction false} AllArrive(s: State, replies: seq<(nat, seq<bv8>)>, random: nat -> Word, j: nat)
    requires s.keyValid && forall r :: r in replies ==> Fits(r.1)
    ensures var (t, sent) := DeliverAll(s, replies, random, j); var (k, got) := ReceiveAll(s.key, sent);
      k == t.key && Received(got, replies)
    decreases |replies|
  {
    if replies != [] {
      assert replies[0] in replies;
      var t, rest := FirstArrives(s, replies, random, j);
      AllArrive(t, replies[1..], random, j + 1);
    }
  }

  // A request of the manager, with what its handling meets.
  datatype Request = Request(kind: nat, random: Word, body: seq<bv8>, env: Env)

  // What the handler answers.
  function Answers(x: Request): seq<(nat, seq<bv8>)> {
    if x.kind != FM_M_NEWKEY then x.env.replies
    else match x.env.written
      case CannotOpen => [(FM_M_ERROR, [FM_ERROR_PASSFILE])]
      case CannotWrite => [(FM_M_ERROR, [FM_ERROR_PASSWRITE])]
      case Written => [(FM_M_NEWKEYACK, [])]
  }

  predicate RequestOk(x: Request) {
    (OtherHandler(x.kind) || x.kind == FM_M_NEWKEY) && Fits(x.body) && forall r :: r in Answers(x) ==> Fits(r.1)
  }

  // What came of a request: what was handled and what the manager made of the answers.
  datatype Outcome = Outcome(handled: Option<(nat, seq<bv8>)>, got: seq<Option<(nat, seq<bv8>)>>)

  // The manager seals a request, the filter handles it, and the manager receives
  // every answer.
  function Exchange(s: State, k: Key, x: Request): (r: (State, Key, Outcome))
    requires |s.password| == PASSWORD_LENGTH && RequestOk(x)
    ensures |r.0.password| == PASSWORD_LENGTH
  {
    var (after, rest) := Seal(k, x.random, x.body);
    var (t, effect) := Handle(s, Message(x.kind, 1, rest), x.env);
    var (last, got) := ReceiveAll(after, effect.sent);
    (t, last, Outcome(effect.handled, got))
  }

  function Exchanges(s: State, k: Key, xs: seq<Request>): (r: (State, Key, seq<Outcome>))
    requires |s.password| == PASSWORD_LENGTH && forall x :: x in xs ==> RequestOk(x)
    ensures |r.0.password| == PASSWORD_LENGTH && |r.2| == |xs|
    decreases |xs|
  {
    if xs == [] then (s, k, [])
    else
      var (t, after, o) := Exchange(s, k, xs[0]);
      var (u, last, more) := Exchanges(t, after, xs[1..]);
      (u, last, [o] + more)
  }

  // Both ends hold the same valid key.
  predicate InStep(s: State, k: Key) {
    Secure(s) && s.keyValid && !s.rebooting && s.key == k
  }

  lemma HandleOpened(s: State, m: Message, after: Key, body: seq<bv8>, env: Env)
    requires InStep(s, s.key) && WellSized(m) && m.flags == 1 && m.kind != FM_M_SYNC
    requires Open(s.key, m.rest) == (after, Some(body))
    ensures Handle(s, m, env) == Dispatch(s.(key := after), m.kind, body, env)
  {
  }

  lemma SealedOpens(k: Key, random: Word, body: seq<bv8>) returns (after: Key, rest: seq<bv8>)
    requires Fits(body)
    ensures Seal(k, random, body) == (after, rest) && Open(k, rest) == (after, Some(body)) && |rest| >= HEADER
  {
    SealOpens(k, random, body);
    after, rest := Seal(k, random, body).0, Seal(k, random, body).1;
  }

  lemma ReceiveOne(k: Key, m: Message)
    ensures ReceiveAll(k, [m]) == (Receive(k, m).0, [Receive(k, m).1])
  {
    var sent := [m];
    var (after, got) := Receive(k, m);
    assert sent[1..] == [];
    assert ReceiveAll(after, sent[1..]).1 == [];
    assert ReceiveAll(k, sent).0 == after;
    assert ReceiveAll(k, sent).1 == [got] + [] == [got];
  }

  // Both ends' keys after a request has been opened: what is answered arrives.
  lemma AnswersArrive(s: State, x: Request)
    requires InStep(s, s.key) && RequestOk(x)
    ensures var (t, effect) := Dispatch(s, x.kind, x.body, x.env); var (last, got) := ReceiveAll(s.key, effect.sent);
      InStep(t, last) && effect.handled == Some((x.kind, x.body)) && Received(got, Answers(x))
  {
    if x.kind == FM_M_NEWKEY {
      var kind, body := Answers(x)[0].0, Answers(x)[0].1;
      DeliveredArrives(s, kind, body, x.env.random(0));
      ReceiveOne(s.key, Deliver(s, kind, body, x.env.random(0)).1);
    } else {
      AllArrive(s, Answers(x), x.env.random, 0);
    }
  }

  lemma OneExchange(s: State, k: Key, x: Request)
    requires InStep(s, k) && RequestOk(x)
    ensures var (t, after, o) := Exchange(s, k, x);
      InStep(t, after) && o.handled == Some((x.kind, x.body)) && Received(o.got, Answers(x))
  {
    var after, rest := SealedOpens(k, x.random, x.body);
    HandleOpened(s, Message(x.kind, 1, rest), after, x.body, x.env);
    AnswersArrive(s.(key := after), x);
  }

  predicate Answered(o: Outcome, x: Request) {
    o.handled == Some((x.kind, x.body)) && Received(o.got, Answers(x))
  }

  lemma FirstExchange(s: State, k: Key, xs: seq<Request>) returns (t: State, after: Key, o: Outcome)
    requires InStep(s, k) && xs != [] && forall x :: x in xs ==> RequestOk(x)
    ensures InStep(t, after) && Answered(o, xs[0])
    ensures var (u, last, more) := Exchanges(t, after, xs[1..]); Exchanges(s, k, xs) == (u, last, [o] + more)
  {
    OneExchange(s, k, xs[0]);
    t, after, o := Exchange(s, k, xs[0]).0, Exchange(s, k, xs[0]).1, Exchange(s, k, xs[0]).2;
  }

  // Over any conversation that starts with equal keys, every request is handled with
  // its body, every answer arrives, and after each of them the keys are equal again.
  lemma {:induction false} StaysInSession(s: State, k: Key, xs: seq<Request>)
    requires InStep(s, k) && forall x :: x in xs ==> RequestOk(x)
    ensures var (t, last, os) := Exchanges(s, k, xs);
      && InStep(t, last)
      && forall i {:trigger os[i]} :: 0 <= i < |xs| ==> Answered(os[i], xs[i])
    decreases |xs|
  {
    if xs != [] {
      var t, after, o := FirstExchange(s, k, xs);
      StaysInSession(t, after, xs[1..]);
    }
  }

  // So after a SYNC, with the key the manager computes from the answer.
  lemma SessionAfterSync(s: State, half: Key, spin: bv16, random: Word, env: Env, xs: seq<Request>)
    requires Secure(s) && s.passwordLoaded && !s.rebooting
    requires forall x :: x in xs ==> RequestOk(x)
    ensures var password := UpToZero(s.password);
      var body := SyncBytes(Offer(password, spin, half));
      var (t, effect) := Handle(s, Message(FM_M_SYNC, 1, Header(random, body) + body), env);
      && |effect.sent| == 1
      && var got := Answer(s, effect.sent[0]);
         && got.Some? && |got.value| == SYNC_SIZE
         && var k := XorKeys(half, ServerInit(password, SyncOf(got.value)));
            var (u, last, os) := Exchanges(t, k, xs);
            InStep(u, last) && forall i {:trigger os[i]} :: 0 <= i < |xs| ==> Answered(os[i], xs[i])
  {
    SyncAgrees(s, half, spin, random, env);
    var password := UpToZero(s.password);
    var body := SyncBytes(Offer(password, spin, half));
    var (t, effect) := Handle(s, Message(FM_M_SYNC, 1, Header(random, body) + body), env);
    StaysInSession(t, t.key, xs);
  }
}
