/** The login form: checking a token against `GET /user` and reporting the outcome. */
module Login {
  import opened Wrappers
  import opened JsText

  const InvalidCredentials: string := "Nieprawidłowe dane logowania."
  const MissingGistScope: string := "Token nie ma uprawnienia \"gist\"."
  const ServerUnreachable: string := "Nieudane połączenie z serwerem."

  /** The message for any other request error: status and server message in parentheses. */
  function OtherError(status: int, message: string): (r: string)
    ensures |r| > 16 && r[..16] == "Wystąpił błąd. ("
    ensures r[|r| - 1] == ')'
    ensures r != InvalidCredentials && r != MissingGistScope && r != ServerUnreachable
  {
    "Wystąpił błąd. (" + ShowInt(status) + " " + message + ")"
  }

  /**
   * How `GET /user` settled: the user's login with the `x-oauth-scopes`
   * header (possibly absent), or a request error with its status and message.
   */
  datatype Reply = User(login: string, scopes: Option<string>) | RequestError(status: int, message: string)

  /** A request that got no response reaches the handler as a request error with status 500. */
  function NoResponse(message: string): Reply {
    RequestError(500, message)
  }

  /**
   * Whether the scopes header, split on `", "`, lists `gist`; a header that
   * does must contain the text `gist`.
   */
  predicate HasGistScope(scopes: Option<string>)
    ensures HasGistScope(scopes) ==> scopes.Some? && Infix("gist", scopes.value)
  {
    if scopes.None? then false
    else
      SplitPiecesOccur(scopes.value, ", ");
      "gist" in Split(scopes.value, ", ")
  }

  /** What a submit ends in: `onLogin` with the login, or an error message. */
  datatype Verdict = LogIn(login: string) | Fail(message: string)

  /** The decision the submit handler makes once the request settled. */
  function Classify(username: string, reply: Reply): (v: Verdict)
    ensures v.LogIn? <==> reply.User? && reply.login == username && HasGistScope(reply.scopes)
    ensures v.LogIn? ==> v.login == username
    ensures reply.User? && reply.login != username ==> v == Fail(InvalidCredentials)
    ensures reply.User? && reply.login == username && !HasGistScope(reply.scopes) ==> v == Fail(MissingGistScope)
    ensures reply.RequestError? ==> v.Fail? && v.message in {InvalidCredentials, ServerUnreachable, OtherError(reply.status, reply.message)}
    ensures reply.RequestError? && reply.status == 401 ==> v == Fail(InvalidCredentials)
    ensures reply.RequestError? && reply.status == 500 ==> v == Fail(ServerUnreachable)
    ensures reply.RequestError? && reply.status != 401 && reply.status != 500 ==>
      v == Fail(OtherError(reply.status, reply.message))
  {
    match reply
    case User(login, scopes) =>
      if username != login then Fail(InvalidCredentials)
      else if !HasGistScope(scopes) then Fail(MissingGistScope)
      else LogIn(login)
    case RequestError(status, message) =>
      if status == 401 then Fail(InvalidCredentials)
      else if status == 500 then Fail(ServerUnreachable)
      else Fail(OtherError(status, message))
  }

  class LoginForm {
    var username: string
    var token: string
    var validated: bool
    var error: Option<string>

    constructor ()
      ensures username == "" && token == "" && !validated && error == None
    {
      username, token := "", "";
      validated, error := false, None;
    }

    /** The browser's check of the two `required` inputs. */
    predicate FormValid()
      reads this
    {
      username != "" && token != ""
    }

    method EditUsername(value: string)
      modifies this
      ensures username == value
      ensures token == old(token) && validated == old(validated) && error == old(error)
    {
      username := value;
    }

    method EditToken(value: string)
      modifies this
      ensures token == value
      ensures username == old(username) && validated == old(validated) && error == old(error)
    {
      token := value;
    }

    /**
     * The submit handler. An invalid form only turns on validation; otherwise
     * the request is sent, `reply` is how it settled, validation is turned off
     * and either `onLogin(login, token)` is called or the error is shown.
     */
    method Submit(reply: Reply) returns (onLogin: Option<(string, string)>)
      modifies this
      ensures username == old(username) && token == old(token)
      ensures !old(FormValid()) ==> validated && error == old(error) && onLogin == None
      ensures old(FormValid()) ==> !validated
      ensures old(FormValid()) && Classify(username, reply).LogIn? ==>
        onLogin == Some((Classify(username, reply).login, token)) && error == old(error)
      ensures old(FormValid()) && Classify(username, reply).Fail? ==>
        onLogin == None && error == Some(Classify(username, reply).message)
    {
      onLogin := None;
      if !FormValid() {
        validated := true;
        return;
      }
      validated := false;
      match reply
      case User(login, scopes) =>
        if username != login {
          error := Some(InvalidCredentials);
        } else if !HasGistScope(scopes) {
          error := Some(MissingGistScope);
        } else {
          onLogin := Some((login, token));
        }
      case RequestError(status, message) =>
        if status == 401 {
          error := Some(InvalidCredentials);
        } else if status == 500 {
          error := Some(ServerUnreachable);
        } else {
          error := Some(OtherError(status, message));
        }
    }
  }

  /** The scopes header of the login tests lists `gist`, and so does `gist` alone. */
  lemma GistScopeListed()
    ensures HasGistScope(Some("user, gist"))
    ensures HasGistScope(Some("gist"))
  {
    SplitWithoutSeparator("gist", ", ", "");
    SplitFromAround("user", "gist", ", ", "");
    assert "user" + ", " + "gist" == "user, gist";
    assert "" + "gist" == "gist" && "" + "user" == "user";
    assert Split("user, gist", ", ") == ["user", "gist"];
  }

  /** `gist` counts only as a whole entry, and a missing header lists nothing. */
  lemma GistScopeNotListed()
    ensures !HasGistScope(None)
    ensures !HasGistScope(Some("gists"))
    ensures !HasGistScope(Some("repo, gists"))
  {
    SplitWithoutSeparator("gists", ", ", "");
    SplitFromAround("repo", "gists", ", ", "");
    assert "repo" + ", " + "gists" == "repo, gists";
    assert "" + "gists" == "gists" && "" + "repo" == "repo";
    assert Split("repo, gists", ", ") == ["repo", "gists"];
  }

  /** A user whose login matches and whose token has the `gist` scope is logged in. */
  lemma LoginSucceeds()
    ensures Classify("test_user", User("test_user", Some("user, gist"))) == LogIn("test_user")
  {
    GistScopeListed();
  }

  /** A matching login without a scopes header gets the scope message. */
  lemma LoginWithoutScopes()
    ensures Classify("test_user", User("test_user", None)) == Fail(MissingGistScope)
  {
  }

  /** Status 401 is reported as invalid credentials, status 500 as a failed connection. */
  lemma LoginStatusMessages()
    ensures Classify("test_user", RequestError(401, "")) == Fail(InvalidCredentials)
    ensures Classify("test_user", RequestError(500, "")) == Fail(ServerUnreachable)
  {
  }

  /** A request that got no response is reported as a failed connection. */
  lemma LoginNoResponse(username: string, message: string)
    ensures Classify(username, NoResponse(message)) == Fail(ServerUnreachable)
  {
  }

  /** Any other status is shown with the status and the server's message. */
  lemma LoginOtherStatus()
    ensures Classify("test_user", RequestError(400, "Test message")) == Fail("Wystąpił błąd. (400 Test message)")
  {
    assert ShowNat(4) == "4";
    assert ShowNat(40) == "40";
    assert ShowInt(400) == "400";
  }

  /** The login check is case-sensitive: a login differing only in case is refused. */
  lemma LoginIsCaseSensitive()
    ensures Classify("Test_User", User("test_user", Some("gist"))) == Fail(InvalidCredentials)
  {
  }
}
