/**
 * The `user:add` and `user:rmv` tasks of grifts/user.go: `key:value`
 * arguments, the required-field checks, and the hand-off to the user
 * model, whose `Create`, lookup and `Destroy` are parameters here.
 */
module User {
  import opened Common
  import Text

  const EmailParam: string := "email"
  const PwdParam: string := "pwd"

  const NoAddArguments: string := "no valid arguements to user:add"
  const NoRmvArguments: string := "no valid arguements to user:rmv"
  const MissingParameter: string := "required parameter not supplied"
  const FailedValidation: string := "user parameters failed validation"

  /**
   * The value an argument gives `key`: it must split on ':' into exactly
   * two pieces, the first of them `key`.
   */
  function Recognised(arg: string, key: string): (v: Option<string>)
    ensures v.Some? ==> arg == key + ":" + v.value && ':' !in key && ':' !in v.value
  {
    Text.SplitJoin(arg, ':');
    Text.SplitPiecesLackSeparator(arg, ':');
    var parts := Text.Split(arg, ':');
    if |parts| == 2 && parts[0] == key then
      assert Text.Join(parts, ':') == parts[0] + [':'] + parts[1];
      Some(parts[1])
    else None
  }

  /** Conversely, `key:v` gives `key` the value `v` when neither holds a ':'. */
  lemma RecognisedArgument(key: string, v: string)
    requires ':' !in key && ':' !in v
    ensures Recognised(key + ":" + v, key) == Some(v)
  {
    assert key + ":" + v == key + [':'] + v;
    Text.SplitAfterPiece(key, v, ':');
    Text.SplitNoSeparator(v, ':');
  }

  /** The value of the last argument that gives `key` one, or `init` when none does. */
  function LastValue(args: seq<string>, key: string, init: string): string
    decreases |args|
  {
    if |args| == 0 then init
    else
      match Recognised(args[|args| - 1], key)
      case Some(v) => v
      case None => LastValue(args[..|args| - 1], key, init)
  }

  /** When no argument gives `key` a value, the value is `init`. */
  lemma {:induction false} LastValueDefault(args: seq<string>, key: string, init: string)
    requires forall i :: 0 <= i < |args| ==> Recognised(args[i], key).None?
    ensures LastValue(args, key, init) == init
    decreases |args|
  {
    if |args| > 0 {
      var front := args[..|args| - 1];
      assert forall i :: 0 <= i < |front| ==> front[i] == args[i];
      assert Recognised(args[|args| - 1], key).None?;
      LastValueDefault(front, key, init);
    }
  }

  /**
   * When some argument gives `key` a value, the value is that of an
   * argument after which none does.
   */
  lemma {:induction false} LastValueFromLastArgument(args: seq<string>, key: string, init: string, i: int)
    requires 0 <= i < |args| && Recognised(args[i], key).Some?
    ensures exists k :: (0 <= k < |args| && Recognised(args[k], key) == Some(LastValue(args, key, init))
      && forall j :: k < j < |args| ==> Recognised(args[j], key).None?)
    decreases |args|
  {
    var n := |args| - 1;
    if Recognised(args[n], key).Some? {
      assert Recognised(args[n], key) == Some(LastValue(args, key, init));
    } else {
      var front := args[..n];
      assert front[i] == args[i];
      LastValueFromLastArgument(front, key, init, i);
      var k :| 0 <= k < |front| && Recognised(front[k], key) == Some(LastValue(front, key, init))
        && forall j :: k < j < |front| ==> Recognised(front[j], key).None?;
      assert args[k] == front[k];
      forall j | k < j < |args|
        ensures Recognised(args[j], key).None?
      {
        if j < n {
          assert args[j] == front[j];
        }
      }
    }
  }

  /** A later `key:v` overrides whatever came before it. */
  lemma LaterArgumentWins(args: seq<string>, key: string, v: string, init: string)
    requires ':' !in key && ':' !in v
    ensures LastValue(args + [key + ":" + v], key, init) == v
  {
    RecognisedArgument(key, v);
  }

  /** An argument that gives `key` no value changes nothing. */
  lemma UnrecognisedIgnored(args: seq<string>, arg: string, key: string, init: string)
    requires Recognised(arg, key).None?
    ensures LastValue(args + [arg], key, init) == LastValue(args, key, init)
  {
    assert (args + [arg])[..|args|] == args;
  }

  /** `email:` after an address clears it again, so the task then reports a missing parameter. */
  lemma EmptyValueClears(args: seq<string>, init: string)
    ensures LastValue(args + ["email:"], EmailParam, init) == ""
  {
    RecognisedArgument(EmailParam, "");
    assert EmailParam + ":" + "" == "email:";
  }

  /** The loop over `c.Args`: each recognised `email` and `pwd` argument overwrites the field. */
  method ScanArgs(args: seq<string>) returns (email: string, pwd: string)
    ensures email == LastValue(args, EmailParam, "") && pwd == LastValue(args, PwdParam, "")
  {
    email, pwd := "", "";
    var i := 0;
    while i < |args|
      invariant 0 <= i <= |args|
      invariant email == LastValue(args[..i], EmailParam, "") && pwd == LastValue(args[..i], PwdParam, "")
    {
      var arg := args[i];
      var parts := Text.Split(arg, ':');
      if |parts| == 2 && parts[0] == EmailParam {
        email := parts[1];
      }
      if |parts| == 2 && parts[0] == PwdParam {
        pwd := parts[1];
      }
      assert args[..i + 1][..i] == args[..i] && args[..i + 1][i] == arg;
      i := i + 1;
    }
    assert args[..i] == args;
  }

  /** The fields of models.User the tasks set. */
  datatype UserRecord = UserRecord(email: string, password: string, passwordConfirmation: string)

  /**
   * `user:add`. `create(u)` is the user model's `Create`: whether it found
   * validation errors, and its error. The second result is the user handed
   * to it, when the task got that far.
   */
  method Add(args: seq<string>, create: UserRecord -> (bool, Option<string>)) returns (err: Option<string>, submitted: Option<UserRecord>)
    ensures |args| == 0 ==> err == Some(NoAddArguments) && submitted.None?
    ensures var e, p := LastValue(args, EmailParam, ""), LastValue(args, PwdParam, "");
      |args| > 0 && (e == "" || p == "") ==> err == Some(MissingParameter) && submitted.None?
    ensures var e, p := LastValue(args, EmailParam, ""), LastValue(args, PwdParam, "");
      |args| > 0 && e != "" && p != "" ==>
        submitted == Some(UserRecord(e, p, p))
        && err == (if create(UserRecord(e, p, p)).0 then Some(FailedValidation) else create(UserRecord(e, p, p)).1)
  {
    if |args| == 0 {
      return Some(NoAddArguments), None;
    }
    var email, pwd := ScanArgs(args);
    if |email| == 0 || |pwd| == 0 {
      return Some(MissingParameter), None;
    }
    var u := UserRecord(email, pwd, pwd);
    var (verrs, e) := create(u);
    submitted := Some(u);
    if verrs {
      return Some(FailedValidation), submitted;
    }
    err := e;
  }

  /**
   * `user:rmv`. `find(email)` is the `Where("Email = ?").First` lookup and
   * `destroy(u)` the error of `Destroy`. The second result is the user
   * removed, when the task got that far.
   */
  method Rmv(args: seq<string>, find: string -> Result<UserRecord>, destroy: UserRecord -> Option<string>)
    returns (err: Option<string>, removed: Option<UserRecord>)
    ensures |args| == 0 ==> err == Some(NoRmvArguments) && removed.None?
    ensures var e := LastValue(args, EmailParam, "");
      |args| > 0 && e == "" ==> err == Some(MissingParameter) && removed.None?
    ensures var e := LastValue(args, EmailParam, "");
      |args| > 0 && e != "" && find(e).Err? ==> err == Some(find(e).msg) && removed.None?
    ensures var e := LastValue(args, EmailParam, "");
      |args| > 0 && e != "" && find(e).Ok? ==> removed == Some(find(e).value) && err == destroy(find(e).value)
  {
    if |args| == 0 {
      return Some(NoRmvArguments), None;
    }
    var email, _ := ScanArgs(args);
    if |email| == 0 {
      return Some(MissingParameter), None;
    }
    var found := find(email);
    if found.Err? {
      return Some(found.msg), None;
    }
    removed := Some(found.value);
    err := destroy(found.value);
  }

  /** `pwd` arguments make no difference to `user:rmv`. */
  lemma RmvIgnoresPassword(args: seq<string>, v: string)
    requires ':' !in v
    ensures LastValue(args + ["pwd:" + v], EmailParam, "") == LastValue(args, EmailParam, "")
  {
    var arg := "pwd:" + v;
    assert arg == "pwd" + [':'] + v;
    Text.SplitAfterPiece("pwd", v, ':');
    Text.SplitNoSeparator(v, ':');
    assert Text.Split(arg, ':')[0] == "pwd" != EmailParam;
    UnrecognisedIgnored(args, arg, EmailParam, "");
  }
}
