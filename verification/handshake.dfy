/** The auto-auth handshake run when the bot spawns: send `/register p p`,
    read exactly one chat reply, and only if registration resolved send
    `/login p` and read exactly one more. The first rejection ends the chain
    and is logged by its `catch`; it is never rethrown.

    Two views are given. `Authenticate` is the event-driven one: every chat
    message in arrival order is offered to a session whose single one-shot
    listener is the outstanding step, if any. `PromiseChain` is the
    closed-form reading of the register-then-login promise chain. They are
    proved equal. */
module Handshake {
  import opened Text
  import opened Colors
  import opened Replies

  /** The register command: the password twice, as password and confirmation. */
  function RegisterLine(password: string): (line: string)
    ensures StartsWith(line, "/register ")
    ensures |line| == 11 + 2 * |password|
    ensures line[10..10 + |password|] == password && line[10 + |password|] == ' '
    ensures line[11 + |password|..] == password
  {
    "/register " + password + " " + password
  }

  /** The login command: the password once. */
  function LoginLine(password: string): (line: string)
    ensures StartsWith(line, "/login ")
    ensures line[7..] == password
  {
    "/login " + password
  }

  /** A rejection of one of the two steps, carrying the stripped reply. */
  datatype AuthError =
    | RegisterInvalidCommand(message: string)
    | RegisterUnexpected(message: string)
    | LoginInvalidPassword(message: string)
    | LoginNotRegistered(message: string)
    | LoginUnexpected(message: string)
  {
    predicate DuringRegister()
    {
      RegisterInvalidCommand? || RegisterUnexpected?
    }
  }

  datatype Outcome = Authenticated | Failed(error: AuthError)

  /** The step whose reply is awaited, or the settled result of the chain. */
  datatype Step = AwaitRegister | AwaitLogin | Settled(outcome: Outcome)

  /** A handshake in progress: where it stands, the chat lines it has sent,
      and how many chat replies it has consumed. */
  datatype Session = Session(step: Step, sent: seq<string>, consumed: nat)

  /** The rejection for a register reply that does not resolve. */
  function RegisterError(reply: RegisterReply, clean: string): AuthError
  {
    if reply == InvalidCommand then RegisterInvalidCommand(clean) else RegisterUnexpected(clean)
  }

  /** The login step's settlement for a given reply. */
  function LoginOutcome(message: string): Outcome
  {
    var clean := StripColors(message);
    match ClassifyLogin(message)
    case LoggedIn => Authenticated
    case InvalidPassword => Failed(LoginInvalidPassword(clean))
    case NotRegistered => Failed(LoginNotRegistered(clean))
    case UnexpectedLoginReply => Failed(LoginUnexpected(clean))
  }

  /** The register command has just been sent; its reply is awaited. */
  function Begin(password: string): Session
  {
    Session(AwaitRegister, [RegisterLine(password)], 0)
  }

  /** One chat message arrives. The outstanding one-shot listener, if any,
      consumes it and is gone; a settled session has no listener left. */
  function Deliver(s: Session, password: string, message: string): (t: Session)
    ensures s.step.Settled? ==> t == s
    ensures !s.step.Settled? ==> t.consumed == s.consumed + 1
    ensures |s.sent| <= |t.sent| <= |s.sent| + 1 && t.sent[..|s.sent|] == s.sent
    ensures |t.sent| == |s.sent| + 1 <==> s.step == AwaitRegister && t.step == AwaitLogin
  {
    match s.step
    case Settled(_) => s
    case AwaitRegister =>
      var reply := ClassifyRegister(message);
      if reply.Resolves() then
        Session(AwaitLogin, s.sent + [LoginLine(password)], s.consumed + 1)
      else
        Session(Settled(Failed(RegisterError(reply, StripColors(message)))), s.sent, s.consumed + 1)
    case AwaitLogin =>
      Session(Settled(LoginOutcome(message)), s.sent, s.consumed + 1)
  }

  /** Offer every chat message, in arrival order, to the session. */
  function Feed(s: Session, password: string, replies: seq<string>): (t: Session)
    ensures s.consumed <= t.consumed <= s.consumed + |replies|
    ensures |s.sent| <= |t.sent| && t.sent[..|s.sent|] == s.sent
    decreases |replies|
  {
    if |replies| == 0 then s else Feed(Deliver(s, password, replies[0]), password, replies[1..])
  }

  /** The handshake started on spawn, after the given chat messages. */
  function Authenticate(password: string, replies: seq<string>): (s: Session)
    ensures OnePending(s)
    ensures s.consumed <= |replies|
    ensures |s.sent| >= 1 && s.sent[0] == RegisterLine(password)
  {
    FeedKeepsOnePending(Begin(password), password, replies);
    Feed(Begin(password), password, replies)
  }

  /** The promise chain read directly:
      no reply yet, the register rejection, the login still pending, or the
      login's settlement. */
  function PromiseChain(password: string, replies: seq<string>): (s: Session)
    ensures OnePending(s)
    ensures s.consumed <= |replies| && s.consumed <= 2
  {
    if |replies| == 0 then Begin(password)
    else
      var first := ClassifyRegister(replies[0]);
      if !first.Resolves() then
        Session(Settled(Failed(RegisterError(first, StripColors(replies[0])))), [RegisterLine(password)], 1)
      else if |replies| == 1 then
        Session(AwaitLogin, [RegisterLine(password), LoginLine(password)], 1)
      else
        Session(Settled(LoginOutcome(replies[1])), [RegisterLine(password), LoginLine(password)], 2)
  }

  /** Once settled, no later chat message changes anything. */
  lemma {:induction false} SettledIgnoresLaterChat(s: Session, password: string, replies: seq<string>)
    requires s.step.Settled?
    ensures Feed(s, password, replies) == s
    decreases |replies|
  {
    if |replies| != 0 {
      SettledIgnoresLaterChat(s, password, replies[1..]);
    }
  }

  /** The event-driven handshake is the promise chain. */
  lemma AuthenticateIsPromiseChain(password: string, replies: seq<string>)
    ensures Authenticate(password, replies) == PromiseChain(password, replies)
  {
    if |replies| > 0 {
      var s1 := Deliver(Begin(password), password, replies[0]);
      if s1.step.Settled? {
        SettledIgnoresLaterChat(s1, password, replies[1..]);
      } else if |replies| > 1 {
        var rest := replies[1..];
        var s2 := Deliver(s1, password, rest[0]);
        SettledIgnoresLaterChat(s2, password, rest[1..]);
        assert Authenticate(password, replies) == Feed(s1, password, rest);
        assert Feed(s1, password, rest) == Feed(s2, password, rest[1..]);
        assert rest[0] == replies[1];
      } else {
        assert replies[1..] == [];
        assert Authenticate(password, replies) == Feed(s1, password, replies[1..]);
        assert Feed(s1, password, replies[1..]) == s1;
        assert s1.sent == [RegisterLine(password), LoginLine(password)];
      }
    }
  }

  /** At most one step is outstanding: every line sent but the last is
      answered, and the last is answered exactly when the chain is settled. */
  ghost predicate OnePending(s: Session)
  {
    |s.sent| == s.consumed + (if s.step.Settled? then 0 else 1)
  }

  lemma {:induction false} FeedKeepsOnePending(s: Session, password: string, replies: seq<string>)
    requires OnePending(s)
    ensures OnePending(Feed(s, password, replies))
    decreases |replies|
  {
    if |replies| != 0 {
      FeedKeepsOnePending(Deliver(s, password, replies[0]), password, replies[1..]);
    }
  }

  /** The lines sent: `/register p p` first, then `/login p` exactly when
      the first reply resolved registration, and nothing else. */
  lemma HandshakeSentLines(password: string, replies: seq<string>)
    ensures var s := Authenticate(password, replies);
      && 1 <= |s.sent| <= 2
      && s.sent[0] == RegisterLine(password)
      && (|s.sent| == 2 <==> |replies| >= 1 && ClassifyRegister(replies[0]).Resolves())
      && (|s.sent| == 2 ==> s.sent[1] == LoginLine(password))
  {
    AuthenticateIsPromiseChain(password, replies);
  }

  /** Authentication succeeds exactly when the first reply resolves
      registration and the second is a login confirmation. */
  lemma HandshakeSucceedsIff(password: string, replies: seq<string>)
    ensures Authenticate(password, replies).step == Settled(Authenticated) <==>
      |replies| >= 2 && ClassifyRegister(replies[0]).Resolves()
      && ClassifyLogin(replies[1]) == LoggedIn
  {
    AuthenticateIsPromiseChain(password, replies);
  }

  /** A register rejection is the reported result, whatever follows: no
      login is sent and exactly one reply is consumed. */
  lemma RegisterRejectionIsFinal(password: string, replies: seq<string>)
    requires |replies| >= 1 && !ClassifyRegister(replies[0]).Resolves()
    ensures var s := Authenticate(password, replies);
      && s.step.Settled? && s.step.outcome.Failed? && s.step.outcome.error.DuringRegister()
      && s.step.outcome.error.message == StripColors(replies[0])
      && s.sent == [RegisterLine(password)]
      && s.consumed == 1
    ensures var e := Authenticate(password, replies).step.outcome.error;
      (e.RegisterInvalidCommand? <==> ClassifyRegister(replies[0]) == InvalidCommand)
      && (e.RegisterUnexpected? <==> ClassifyRegister(replies[0]) == UnexpectedRegisterReply)
  {
    AuthenticateIsPromiseChain(password, replies);
  }

  /** Once registration has resolved, the second reply decides the reported
      result: each rejecting login class settles as its own error, quoting
      that reply with its colour codes stripped. */
  lemma LoginRejectionIsReported(password: string, replies: seq<string>)
    requires |replies| >= 2 && ClassifyRegister(replies[0]).Resolves()
    ensures var s := Authenticate(password, replies);
      && s.step.Settled?
      && s.sent == [RegisterLine(password), LoginLine(password)]
      && (s.step.outcome == Authenticated <==> ClassifyLogin(replies[1]) == LoggedIn)
      && (s.step.outcome == Failed(LoginInvalidPassword(StripColors(replies[1]))) <==> ClassifyLogin(replies[1]) == InvalidPassword)
      && (s.step.outcome == Failed(LoginNotRegistered(StripColors(replies[1]))) <==> ClassifyLogin(replies[1]) == NotRegistered)
      && (s.step.outcome == Failed(LoginUnexpected(StripColors(replies[1]))) <==> ClassifyLogin(replies[1]) == UnexpectedLoginReply)
  {
    AuthenticateIsPromiseChain(password, replies);
  }

  /** Exactly one reply per step: one if registration rejects, two
      otherwise, never more than have arrived. */
  lemma HandshakeConsumption(password: string, replies: seq<string>)
    ensures var s := Authenticate(password, replies);
      s.consumed == if |replies| == 0 then 0
        else if !ClassifyRegister(replies[0]).Resolves() then 1
        else if |replies| == 1 then 1
        else 2
    ensures Authenticate(password, replies).step.Settled? <==>
      |replies| >= 2 || (|replies| == 1 && !ClassifyRegister(replies[0]).Resolves())
  {
    AuthenticateIsPromiseChain(password, replies);
  }

  /** Chat that arrives after the two consumed replies has no effect. */
  lemma LaterChatIrrelevant(password: string, replies: seq<string>, later: seq<string>)
    requires |replies| >= 2
    ensures Authenticate(password, replies + later) == Authenticate(password, replies)
  {
    AuthenticateIsPromiseChain(password, replies);
    AuthenticateIsPromiseChain(password, replies + later);
    assert (replies + later)[0] == replies[0] && (replies + later)[1] == replies[1];
  }

  /** The fixed text before and after the stripped reply in each rejection reason. */
  function ErrorFrame(e: AuthError): (string, string)
  {
    match e
    case RegisterInvalidCommand(_) => ("Registration failed: Invalid command. Message: \"", "\"")
    case RegisterUnexpected(_) => ("Registration failed: unexpected message \"", "\".")
    case LoginInvalidPassword(_) => ("Login failed: Invalid password. Message: \"", "\"")
    case LoginNotRegistered(_) => ("Login failed: Not registered. Message: \"", "\"")
    case LoginUnexpected(_) => ("Login failed: unexpected message \"", "\".")
  }

  lemma ErrorFrameNamesStep(e: AuthError)
    ensures var (before, after) := ErrorFrame(e);
      StartsWith(before + e.message + after, "Registration failed: ") <==> e.DuringRegister()
  {
    var (before, after) := ErrorFrame(e);
    var text := before + e.message + after;
    assert |before| >= 21 && text[..21] == before[..21];
    if e.DuringRegister() {
      assert before[..21] == "Registration failed: ";
    } else {
      assert text[0] == before[0] == 'L';
      assert text[..21][0] != "Registration failed: "[0];
    }
  }

  /** Text of the rejection reason passed to `reject`: it quotes the
      stripped reply and names the step that rejected. */
  function ErrorText(e: AuthError): (text: string)
    ensures Occurs(text, e.message)
    ensures StartsWith(text, "Registration failed: ") <==> e.DuringRegister()
  {
    var (before, after) := ErrorFrame(e);
    var text := before + e.message + after;
    OccursInFrame(before, e.message, after);
    ErrorFrameNamesStep(e);
    text
  }

  /** What the chain's `catch` writes to the error log, if anything: the
      rejection is surfaced there and the chain itself then resolves. */
  function CatchLog(s: Session): (line: seq<string>)
    ensures |line| <= 1
    ensures |line| == 1 <==> s.step.Settled? && s.step.outcome.Failed?
    ensures |line| == 1 ==> Occurs(line[0], s.step.outcome.error.message)
  {
    if s.step.Settled? && s.step.outcome.Failed? then
      var text := ErrorText(s.step.outcome.error);
      OccursInContext("[ERROR] ", text, "", s.step.outcome.error.message);
      assert "[ERROR] " + text + "" == "[ERROR] " + text;
      ["[ERROR] " + text]
    else []
  }
}
