// What a NEWKEY installs, what is answered before a password is loaded, and what a
// REBOOT does.
module SessionPasswords {
  import opened LinearProbing
  import opened Messages
  import opened Potp
  import opened Session

  // ----- The password buffer

  lemma {:induction false} OneText(t: seq<bv8>, b: seq<bv8>)
    requires t <= b && 0 !in t && (|t| < |b| ==> b[|t|] == 0)
    ensures UpToZero(b) == t
    decreases |t|
  {
    if t != [] {
      assert t[0] in t && t[0] == b[0];
      assert forall x :: x in t[1..] ==> x in t;
      OneText(t[1..], b[1..]);
    }
  }

  // How much of a NEWKEY body is copied.
  function Copied(body: seq<bv8>): nat { if PASSWORD_LENGTH < |body| then PASSWORD_LENGTH else |body| }

  // The password a NEWKEY body spells: its text, cut to the length of the buffer.
  function NewPassword(body: seq<bv8>): seq<bv8> {
    var text := UpToZero(body);
    if |text| > PASSWORD_LENGTH then text[..PASSWORD_LENGTH] else text
  }

  // Nothing of the old buffer can be left after the text.
  predicate Replaces(buffer: seq<bv8>, body: seq<bv8>)
    requires |buffer| == PASSWORD_LENGTH
  {
    0 in body || |body| >= PASSWORD_LENGTH || buffer[|body|] == 0
  }

  lemma CopiedText(buffer: seq<bv8>, body: seq<bv8>)
    requires |buffer| == PASSWORD_LENGTH && Replaces(buffer, body)
    ensures UpToZero(CopyInto(buffer, body, Copied(body))) == NewPassword(body)
  {
    var text := NewPassword(body);
    assert 0 in body ==> |UpToZero(body)| < |body|;
    assert forall x :: x in text ==> x in UpToZero(body);
    OneText(text, CopyInto(buffer, body, Copied(body)));
  }

  // A body without a zero byte that is shorter than the buffer leaves the old tail.
  lemma TailIsLeft(buffer: seq<bv8>, body: seq<bv8>)
    requires |buffer| == PASSWORD_LENGTH && 0 !in body && |body| < PASSWORD_LENGTH
    ensures CopyInto(buffer, body, |body|) == body + buffer[|body|..]
    ensures UpToZero(CopyInto(buffer, body, |body|)) == body + UpToZero(buffer[|body|..])
    ensures NewPassword(body) == body
  {
    var rest, tail := buffer[|body|..], UpToZero(buffer[|body|..]);
    OneText(body, body);
    assert CopyInto(buffer, body, |body|) == body + rest;
    assert body + tail <= body + rest;
    OneText(body + tail, body + rest);
  }

  // The buffer then spells the new password exactly when the body has a zero byte, or
  // is as long as the buffer, or the old buffer ends where the body does.
  lemma PasswordIsReplaced(buffer: seq<bv8>, body: seq<bv8>)
    requires |buffer| == PASSWORD_LENGTH
    ensures UpToZero(CopyInto(buffer, body, Copied(body))) == NewPassword(body) <==> Replaces(buffer, body)
  {
    if Replaces(buffer, body) {
      CopiedText(buffer, body);
    } else {
      TailIsLeft(buffer, body);
      assert UpToZero(buffer[|body|..]) != [];
    }
  }

  // ----- Which messages are dispatched

  // A message is handled by its handler with `body`, from a state `u` whose key has
  // moved on if it was sealed; or it is not, and leaves everything but the key.
  lemma Dispatched(s: State, m: Message, env: Env) returns (u: State, body: Option<seq<bv8>>)
    requires Secure(s) && WellSized(m)
    ensures u == s.(key := u.key)
    ensures body.Some? ==>
      && (m.kind == FM_M_SYNC ==> |body.value| >= SYNC_SIZE)
      && !s.rebooting && Handle(s, m, env) == Dispatch(u, m.kind, body.value, env)
    ensures body.None? ==>
      var (t, effect) := Handle(s, m, env);
      && t == s.(key := t.key, keyValid := t.keyValid) && effect.handled == None
      && forall x :: x in effect.sent ==> x.flags == Flags(s)
  {
    u, body := s, None;
    if !s.rebooting && m.flags == Flags(s) {
      if s.passwordLoaded == (m.kind == FM_M_SYNC) {
        body := Some(m.rest[HEADER..]);
      } else if s.keyValid {
        var (after, plain) := Open(s.key, m.rest);
        if plain.Some? {
          u, body := s.(key := after), plain;
        }
      }
    }
  }

  // ----- NEWKEY

  lemma NewkeyDispatched(s: State, body: seq<bv8>, env: Env)
    requires Secure(s) && env.written == Written
    ensures var (t, effect) := Dispatch(s, FM_M_NEWKEY, body, env);
      && t == s.(key := t.key, passwordLoaded := true, password := CopyInto(s.password, body, Copied(body)))
      && |effect.sent| == 1 && effect.sent[0].kind == FM_M_NEWKEYACK
  {
  }

  // After a NEWKEY that was handled and written to the file the password is loaded,
  // and is the body's text exactly then; the key is as valid as before, and the
  // acknowledgement is all that is sent.
  lemma NewkeyInstalls(s: State, m: Message, env: Env, body: seq<bv8>)
    requires Secure(s) && WellSized(m) && env.written == Written
    requires Handle(s, m, env).1.handled == Some((FM_M_NEWKEY, body))
    ensures var (t, effect) := Handle(s, m, env);
      && Secure(t) && t.passwordLoaded && !t.rebooting && t.keyValid == s.keyValid
      && (UpToZero(t.password) == NewPassword(body) <==> Replaces(s.password, body))
      && |effect.sent| == 1 && effect.sent[0].kind == FM_M_NEWKEYACK
  {
    var u, given := Dispatched(s, m, env);
    assert given.Some? && m.kind == FM_M_NEWKEY && given.value == body;
    NewkeyDispatched(u, body, env);
    PasswordIsReplaced(s.password, body);
  }

  // No other message touches the password.
  lemma OnlyNewkeyInstalls(s: State, m: Message, env: Env)
    requires Secure(s) && WellSized(m)
    ensures var (t, effect) := Handle(s, m, env);
      (t.password == s.password && t.passwordLoaded == s.passwordLoaded) ||
      (effect.handled.Some? && effect.handled.value.0 == FM_M_NEWKEY && env.written == Written)
  {
  }

  // A manager that then offers a SYNC under the new password ends up with the
  // filter's session key.
  lemma NewPasswordAgrees(s: State, m: Message, env: Env, body: seq<bv8>,
      half: Key, spin: bv16, random: Word, next: Env)
    requires Secure(s) && WellSized(m) && env.written == Written && Replaces(s.password, body)
    requires Handle(s, m, env).1.handled == Some((FM_M_NEWKEY, body))
    ensures var t, password := Handle(s, m, env).0, NewPassword(body);
      var sync := SyncBytes(Offer(password, spin, half));
      var (u, effect) := Handle(t, Message(FM_M_SYNC, 1, Header(random, sync) + sync), next);
      && u.keyValid && UpToZero(u.password) == password && |effect.sent| == 1
      && var got := Answer(t, effect.sent[0]);
         && got.Some? && |got.value| == SYNC_SIZE
         && u.key == XorKeys(half, ServerInit(password, SyncOf(got.value)))
  {
    NewkeyInstalls(s, m, env, body);
    SyncAgrees(Handle(s, m, env).0, half, spin, random, next);
  }

  // ----- Without a password, and rebooting

  // While no password is loaded a handler runs exactly on messages in insecure mode,
  // SYNC excepted, and is given the body as it came.
  lemma InsecureHandled(s: State, m: Message, env: Env)
    requires Secure(s) && WellSized(m) && !s.passwordLoaded
    ensures Handle(s, m, env).1.handled ==
      if !s.rebooting && m.flags == 0 && (m.kind == FM_M_REBOOT || m.kind == FM_M_NEWKEY || OtherHandler(m.kind))
      then Some((m.kind, m.rest[HEADER..])) else None
  {
  }

  lemma DispatchSilences(s: State, kind: nat, body: seq<bv8>, env: Env)
    requires Secure(s) && (kind == FM_M_SYNC ==> |body| >= SYNC_SIZE)
    ensures var (t, effect) := Dispatch(s, kind, body, env);
      && (t.rebooting <==> s.rebooting || kind == FM_M_REBOOT)
      && (kind == FM_M_REBOOT ==> |effect.sent| == 1 && effect.sent[0].kind == FM_M_REBOOTACK)
      && (effect.handled.Some? ==> effect.handled.value.0 == kind)
      && (kind == FM_M_REBOOT ==> effect.handled.Some?)
  {
  }

  // A REBOOT that is handled, and nothing else, makes the filter fall silent, after
  // one acknowledgement.
  lemma OnlyRebootSilences(s: State, m: Message, env: Env)
    requires Secure(s) && WellSized(m)
    ensures var (t, effect) := Handle(s, m, env);
      var reboots := effect.handled.Some? && effect.handled.value.0 == FM_M_REBOOT;
      && (t.rebooting <==> s.rebooting || reboots)
      && (reboots ==> |effect.sent| == 1 && effect.sent[0].kind == FM_M_REBOOTACK)
  {
    var u, body := Dispatched(s, m, env);
    if body.Some? {
      DispatchSilences(u, m.kind, body.value, env);
    }
  }

  // ----- What goes out

  lemma {:induction false} RepliesCarryMode(s: State, replies: seq<(nat, seq<bv8>)>, random: nat -> Word, j: nat)
    ensures forall m :: m in DeliverAll(s, replies, random, j).1 ==> m.flags == Flags(s)
    decreases |replies|
  {
    if replies != [] {
      RepliesCarryMode(Deliver(s, replies[0].0, replies[0].1, random(j)).0, replies[1..], random, j + 1);
    }
  }

  lemma DispatchCarriesMode(s: State, kind: nat, body: seq<bv8>, env: Env)
    requires Secure(s) && (kind == FM_M_SYNC ==> |body| >= SYNC_SIZE)
    ensures forall x :: x in Dispatch(s, kind, body, env).1.sent ==> x.flags == Flags(s)
  {
    RepliesCarryMode(s, env.replies, env.random, 0);
  }

  // Every message sent says in which mode the filter was when the message it answers
  // came in.
  lemma AnswersCarryMode(s: State, m: Message, env: Env)
    requires Secure(s) && WellSized(m)
    ensures forall x :: x in Handle(s, m, env).1.sent ==> x.flags == Flags(s)
  {
    var u, body := Dispatched(s, m, env);
    if body.Some? {
      DispatchCarriesMode(u, m.kind, body.value, env);
    }
  }

  // A reply as it goes out in the clear: type, mode, a header of its own and the body.
  function InClear(s: State, reply: (nat, seq<bv8>), random: Word): Message {
    Message(reply.0, Flags(s), Header(random, reply.1) + reply.1)
  }

  function AllInClear(s: State, replies: seq<(nat, seq<bv8>)>, random: nat -> Word, j: nat): seq<Message>
    decreases |replies|
  {
    if replies == [] then []
    else [InClear(s, replies[0], random(j))] + AllInClear(s, replies[1..], random, j + 1)
  }

  lemma OneInClear(s: State, reply: (nat, seq<bv8>), random: Word)
    requires !s.keyValid
    ensures Deliver(s, reply.0, reply.1, random) == (s, InClear(s, reply, random))
  {
  }

  // Without a valid key the replies go out in the clear, in order, and the state stays
  // as it is.
  lemma {:induction false} ClearReplies(s: State, replies: seq<(nat, seq<bv8>)>, random: nat -> Word, j: nat)
    requires !s.keyValid
    ensures DeliverAll(s, replies, random, j) == (s, AllInClear(s, replies, random, j))
    decreases |replies|
  {
    if replies != [] {
      OneInClear(s, replies[0], random(j));
      ClearReplies(s, replies[1..], random, j + 1);
    }
  }
}
