// The management message handler's code, on the session's fields.
module SessionCode {
  import C = Checksum
  import opened LinearProbing
  import opened Messages
  import opened Potp
  import opened PotpCode
  import opened Session

  class Manager {
    var password: seq<bv8>
    var passwordLoaded: bool
    var sessionKeyValid: bool
    const sessionKey: Registers
    var rebootRequested: bool

    ghost predicate Valid()
      reads this
    {
      |password| == PASSWORD_LENGTH
    }

    ghost function Value(): State
      reads this, sessionKey
    {
      State(passwordLoaded, password, sessionKeyValid, sessionKey.Value(), rebootRequested)
    }

    constructor (password: seq<bv8>, loaded: bool)
      requires |password| == PASSWORD_LENGTH
      ensures Valid() && fresh(sessionKey) && Secure(Value())
      ensures passwordLoaded == loaded && this.password == password && !sessionKeyValid && !rebootRequested
    {
      this.password := password;
      passwordLoaded := loaded;
      sessionKeyValid := false;
      sessionKey := new Registers(Key(0, 0, 0));
      rebootRequested := false;
    }

    // Encrypt or decrypt a copy of `from` under the session key.
    method Code(from: seq<bv8>) returns (to: seq<bv8>)
      modifies sessionKey
      ensures to == Cipher(old(sessionKey.Value()), from)
      ensures sessionKey.Value() == Steps(old(sessionKey.Value()), 8 * |from|)
    {
      var buf := new bv8[|from|](i requires 0 <= i < |from| => from[i]);
      assert buf[..|from|] == from;
      sessionKey.Encrypt(buf, buf, |from|);
      to := buf[..|from|];
    }

    method DeliverPacket(kind: nat, body: seq<bv8>, random: Word) returns (m: Message)
      modifies sessionKey
      ensures (Value(), m) == Deliver(old(Value()), kind, body, random)
    {
      var header := Header(random, body);
      if sessionKeyValid && kind != FM_M_ERROR {
        var first := Code(header);
        var second := Code(body);
        return Message(kind, if passwordLoaded then 1 else 0, first + second);
      }
      return Message(kind, if passwordLoaded then 1 else 0, header + body);
    }

    method SendError(code: bv8, env: Env) returns (effect: Effect)
      modifies sessionKey
      ensures (Value(), effect) == Error(old(Value()), code, env)
    {
      var m := DeliverPacket(FM_M_ERROR, [code], env.random(0));
      return Effect([m], None);
    }

    method Install(key: Key)
      modifies this`sessionKeyValid, sessionKey
      ensures Value() == old(Value()).(key := key, keyValid := true)
    {
      sessionKey.i1, sessionKey.i2, sessionKey.i3 := key.i1, key.i2, key.i3;
      sessionKeyValid := true;
    }

    method SyncHandler(body: seq<bv8>, env: Env) returns (sent: seq<Message>)
      requires |body| >= SYNC_SIZE
      modifies this`sessionKeyValid, sessionKey
      ensures (Value(), sent) == HandleSync(old(Value()), body, env)
    {
      var clock := new Registers(env.clock);
      var mine, offer := PotpCode.ClientInit(UpToZero(password), clock);
      var m := DeliverPacket(FM_M_SYNCACK, SyncBytes(offer), env.random(0));
      var theirs := PotpCode.ServerInit(UpToZero(password), SyncOf(body));
      Install(XorKeys(mine, theirs));
      sent := [m];
    }

    method NewkeyHandler(body: seq<bv8>, env: Env) returns (sent: seq<Message>)
      requires Valid()
      modifies this`password, this`passwordLoaded, sessionKey
      ensures Valid() && (Value(), sent) == HandleNewkey(old(Value()), body, env)
    {
      match env.written
      case CannotOpen =>
        var m := DeliverPacket(FM_M_ERROR, [FM_ERROR_PASSFILE], env.random(0));
        sent := [m];
      case CannotWrite =>
        var m := DeliverPacket(FM_M_ERROR, [FM_ERROR_PASSWRITE], env.random(0));
        sent := [m];
      case Written =>
        var m := DeliverPacket(FM_M_NEWKEYACK, [], env.random(0));
        password := CopyInto(password, body, if PASSWORD_LENGTH < |body| then PASSWORD_LENGTH else |body|);
        passwordLoaded := true;
        sent := [m];
    }

    method OtherReplies(replies: seq<(nat, seq<bv8>)>, random: nat -> Word, j: nat) returns (sent: seq<Message>)
      modifies sessionKey
      ensures (Value(), sent) == DeliverAll(old(Value()), replies, random, j)
      decreases |replies|
    {
      if replies == [] {
        return [];
      }
      var m := DeliverPacket(replies[0].0, replies[0].1, random(j));
      var rest := OtherReplies(replies[1..], random, j + 1);
      sent := [m] + rest;
    }

    method DispatchMessage(kind: nat, body: seq<bv8>, env: Env) returns (effect: Effect)
      requires Valid() && (kind == FM_M_SYNC ==> |body| >= SYNC_SIZE)
      modifies this, sessionKey
      ensures Valid() && (Value(), effect) == Dispatch(old(Value()), kind, body, env)
    {
      if kind == FM_M_SYNC {
        var sent := SyncHandler(body, env);
        return Effect(sent, Some((kind, body)));
      }
      if kind == FM_M_REBOOT {
        var m := DeliverPacket(FM_M_REBOOTACK, [], env.random(0));
        rebootRequested := true;
        return Effect([m], Some((kind, body)));
      }
      if kind == FM_M_NEWKEY {
        var sent := NewkeyHandler(body, env);
        return Effect(sent, Some((kind, body)));
      }
      if OtherHandler(kind) {
        var sent := OtherReplies(env.replies, env.random, 0);
        return Effect(sent, Some((kind, body)));
      }
      return Effect([], None);
    }

    // Decrypt and verify; a failed check invalidates the session key.
    method OpenMessage(rest: seq<bv8>) returns (body: Option<seq<bv8>>)
      requires |rest| >= HEADER
      modifies this`sessionKeyValid, sessionKey
      ensures body == Open(old(Value().key), rest).1
      ensures Value() == old(Value()).(key := Open(old(Value().key), rest).0, keyValid := sessionKeyValid)
      ensures sessionKeyValid == (body.Some? && old(sessionKeyValid))
    {
      var plain := Code(rest);
      if C.ChkSum(Numbers(plain), None) != 0 {
        sessionKeyValid := false;
        return None;
      }
      return Some(plain[HEADER..]);
    }

    method Respond(m: Message, env: Env) returns (effect: Effect)
      requires Valid() && WellSized(m)
      modifies this, sessionKey
      ensures Valid() && (Value(), effect) == Handle(old(Value()), m, env)
    {
      if rebootRequested {
        return Effect([], None);
      }
      if m.flags != if passwordLoaded then 1 else 0 {
        effect := SendError(if passwordLoaded then FM_ERROR_SECURE else FM_ERROR_INSECURE, env);
        return;
      }
      var body := m.rest[HEADER..];
      if passwordLoaded {
        if m.kind != FM_M_SYNC {
          if !sessionKeyValid {
            effect := SendError(FM_ERROR_LOSTSYNC, env);
            return;
          }
          var verified := OpenMessage(m.rest);
          if verified == None {
            effect := SendError(FM_ERROR_LOSTSYNC, env);
            return;
          }
          body := verified.value;
        }
      } else if m.kind == FM_M_SYNC {
        effect := SendError(FM_ERROR_INSECURE, env);
        return;
      }
      effect := DispatchMessage(m.kind, body, env);
    }

    method FiltMessage(m: Message, env: Env) returns (effect: Effect)
      requires Valid() && WellSized(m)
      modifies this, sessionKey
      ensures Valid() && (Value(), effect) == Handle(old(Value()), m, env)
      ensures old(Secure(Value())) ==> Secure(Value())
    {
      if Secure(Value()) {
        HandleKeeps(Value(), m, env);
      }
      effect := Respond(m, env);
    }
  }
}
