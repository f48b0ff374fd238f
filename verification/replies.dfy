/** Classification of the one chat reply that answers `/register` and of the
    one that answers `/login`. Both classify the colour-stripped message by an
    ordered chain of case-sensitive substring tests. */
module Replies {
  import opened Text
  import opened Colors

  const SuccessfullyRegistered: string := "successfully registered"
  const AlreadyRegisteredMarker: string := "already registered"
  const InvalidCommandMarker: string := "Invalid command"
  const SuccessfullyLoggedIn: string := "successfully logged in"
  const InvalidPasswordMarker: string := "Invalid password"
  const NotRegisteredMarker: string := "not registered"

  /** How the reply to `/register` is read. */
  datatype RegisterReply = Registered | AlreadyRegistered | InvalidCommand | UnexpectedRegisterReply
  {
    /** The register promise resolves (instead of rejecting). */
    predicate Resolves()
    {
      Registered? || AlreadyRegistered?
    }
  }

  /** How the reply to `/login` is read. */
  datatype LoginReply = LoggedIn | InvalidPassword | NotRegistered | UnexpectedLoginReply

  /** The register reply's classifier: the two success markers are tested
      first, then the invalid-command marker; anything else is unexpected. */
  function ClassifyRegister(message: string): (r: RegisterReply)
    ensures var clean := StripColors(message);
      && (r == Registered <==> Occurs(clean, SuccessfullyRegistered))
      && (r == AlreadyRegistered <==>
            !Occurs(clean, SuccessfullyRegistered) && Occurs(clean, AlreadyRegisteredMarker))
      && (r == InvalidCommand <==>
            !Occurs(clean, SuccessfullyRegistered) && !Occurs(clean, AlreadyRegisteredMarker)
            && Occurs(clean, InvalidCommandMarker))
  {
    var clean := StripColors(message);
    if Includes(clean, SuccessfullyRegistered) then Registered
    else if Includes(clean, AlreadyRegisteredMarker) then AlreadyRegistered
    else if Includes(clean, InvalidCommandMarker) then InvalidCommand
    else UnexpectedRegisterReply
  }

  /** The login reply's classifier, tested in the order success, wrong
      password, not registered; anything else is unexpected. */
  function ClassifyLogin(message: string): (r: LoginReply)
    ensures var clean := StripColors(message);
      && (r == LoggedIn <==> Occurs(clean, SuccessfullyLoggedIn))
      && (r == InvalidPassword <==>
            !Occurs(clean, SuccessfullyLoggedIn) && Occurs(clean, InvalidPasswordMarker))
      && (r == NotRegistered <==>
            !Occurs(clean, SuccessfullyLoggedIn) && !Occurs(clean, InvalidPasswordMarker)
            && Occurs(clean, NotRegisteredMarker))
  {
    var clean := StripColors(message);
    if Includes(clean, SuccessfullyLoggedIn) then LoggedIn
    else if Includes(clean, InvalidPasswordMarker) then InvalidPassword
    else if Includes(clean, NotRegisteredMarker) then NotRegistered
    else UnexpectedLoginReply
  }

  /** Registration resolves exactly when either success marker occurs in the
      stripped reply; an invalid-command marker beside one does not matter. */
  lemma RegisterResolvesIff(message: string)
    ensures ClassifyRegister(message).Resolves() <==>
      (Occurs(StripColors(message), SuccessfullyRegistered)
       || Occurs(StripColors(message), AlreadyRegisteredMarker))
  {
  }

  /** A reply carrying either success marker still resolves registration
      when it also carries the invalid-command marker, in whatever order or
      colouring: the success tests come first. */
  lemma SuccessOutranksInvalidCommand(message: string)
    requires Occurs(StripColors(message), SuccessfullyRegistered)
          || Occurs(StripColors(message), AlreadyRegisteredMarker)
    requires Occurs(StripColors(message), InvalidCommandMarker)
    ensures ClassifyRegister(message).Resolves()
    ensures ClassifyRegister(message) != InvalidCommand
  {
  }

  /** For instance, with colour-free text around them, "successfully
      registered" followed by "Invalid command" is a registration. */
  lemma SuccessBeforeInvalidCommand(prefix: string, suffix: string)
    requires Section !in prefix && Section !in suffix
    ensures ClassifyRegister(prefix + SuccessfullyRegistered + suffix + InvalidCommandMarker) == Registered
  {
    var m := prefix + SuccessfullyRegistered + suffix + InvalidCommandMarker;
    assert Section !in SuccessfullyRegistered && Section !in InvalidCommandMarker;
    assert Section !in m;
    assert OccursAt(SuccessfullyRegistered, SuccessfullyRegistered, 0);
    OccursInContext(prefix, SuccessfullyRegistered, suffix + InvalidCommandMarker, SuccessfullyRegistered);
    assert m == prefix + SuccessfullyRegistered + (suffix + InvalidCommandMarker);
  }

  /** A wrong-password reply that also says "not registered" is reported as
      a wrong password: that test comes first. */
  lemma InvalidPasswordOutranksNotRegistered(message: string)
    requires !Occurs(StripColors(message), SuccessfullyLoggedIn)
    requires Occurs(StripColors(message), InvalidPasswordMarker)
    ensures ClassifyLogin(message) == InvalidPassword
  {
  }

  /** A formatting code inserted into a reply, anywhere not directly after a
      section sign, does not change how either reply is classified. */
  lemma ClassificationIgnoresInsertedCode(a: string, code: char, b: string)
    requires |a| == 0 || a[|a| - 1] != Section
    requires IsCode(code)
    ensures ClassifyRegister(a + [Section, code] + b) == ClassifyRegister(a + b)
    ensures ClassifyLogin(a + [Section, code] + b) == ClassifyLogin(a + b)
  {
    InsertedCodeVanishes(a, code, b);
  }

  /** A coloured login confirmation, `§asuccessfully logged in§r`, is a
      successful login, just like the bare text. */
  lemma ColouredLoginConfirmation()
    ensures ClassifyLogin([Section, 'a'] + SuccessfullyLoggedIn + [Section, 'r']) == LoggedIn
    ensures ClassifyLogin(SuccessfullyLoggedIn) == LoggedIn
  {
    assert Section !in SuccessfullyLoggedIn;
    ClassificationIgnoresInsertedCode([], 'a', SuccessfullyLoggedIn + [Section, 'r']);
    assert [] + [Section, 'a'] + (SuccessfullyLoggedIn + [Section, 'r'])
        == [Section, 'a'] + SuccessfullyLoggedIn + [Section, 'r'];
    ClassificationIgnoresInsertedCode(SuccessfullyLoggedIn, 'r', []);
    assert SuccessfullyLoggedIn + [Section, 'r'] + [] == SuccessfullyLoggedIn + [Section, 'r'];
    assert [] + (SuccessfullyLoggedIn + [Section, 'r']) == SuccessfullyLoggedIn + [Section, 'r'];
    assert SuccessfullyLoggedIn + [] == SuccessfullyLoggedIn;
    assert OccursAt(SuccessfullyLoggedIn, SuccessfullyLoggedIn, 0);
  }

  /** The words "registered successfully" are not a success marker: only
      "successfully registered" and "already registered" are, so this reply
      is unexpected and rejects registration. */
  lemma ReversedWordingIsUnexpected()
    ensures ClassifyRegister("registered successfully") == UnexpectedRegisterReply
  {
    var m := "registered successfully";
    assert Section !in m;
    AbsentWithoutFirstChar(m, SuccessfullyRegistered);
    AbsentWithoutFirstChar(m, AlreadyRegisteredMarker);
    AbsentWithoutFirstChar(m, InvalidCommandMarker);
  }
}
