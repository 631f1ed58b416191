/** The argument handling of the admin bootstrap script
    (`bootstrapAdmin.js`): `parseArgs`, which reads `--key value` pairs
    from the command line into a dictionary, and the defaulting and usage
    check `run` applies before touching the database. Printing and exiting
    become an `Err` carrying what the message names. */
module BootstrapAdmin {
  import opened Wrappers
  import opened JsText

  /** Why the script stops before any database work. */
  datatype ArgError = MissingValue(key: string) | Usage

  /** The tokens after `node` and the script path. */
  function UserTokens(argv: seq<string>): seq<string> {
    if |argv| >= 2 then argv[2..] else []
  }

  /** A token the parser reads as a key. */
  predicate IsFlag(t: string) { StartsWith(t, "--") }

  /** The reading of `tokens` into `args`, from the front: a flag takes the
      next token as its value, which must be present, non-empty and not a
      flag itself; any other token is skipped. */
  function ParseTokens(tokens: seq<string>, args: map<string, string>): (r: Result<map<string, string>, ArgError>)
    ensures r.Ok? ==> args.Keys <= r.value.Keys
    ensures r.Ok? ==> forall k :: k in r.value ==>
      (k in args && r.value[k] == args[k]) || (r.value[k] != "" && !IsFlag(r.value[k]))
    decreases |tokens|
  {
    if tokens == [] then Ok(args)
    else if IsFlag(tokens[0]) then
      var key := tokens[0][2..];
      if |tokens| < 2 || tokens[1] == "" || IsFlag(tokens[1]) then Err(MissingValue(key))
      else ParseTokens(tokens[2..], args[key := tokens[1]])
    else ParseTokens(tokens[1..], args)
  }

  /** `parseArgs()` on the process's argument vector. */
  method ParseArgs(argv: seq<string>) returns (r: Result<map<string, string>, ArgError>)
    ensures r == ParseTokens(UserTokens(argv), map[])
  {
    var args: map<string, string> := map[];
    var i := 2;
    if |argv| < 2 {
      return Ok(args);
    }
    while i < |argv|
      invariant 2 <= i <= |argv|
      invariant ParseTokens(UserTokens(argv), map[]) == ParseTokens(argv[i..], args)
      decreases |argv| - i
    {
      var arg := argv[i];
      var rest := argv[i..];
      assert rest[0] == arg;
      assert |rest| >= 2 ==> rest[1] == argv[i + 1];
      if IsFlag(arg) {
        var key := arg[2..];
        if i + 1 >= |argv| || argv[i + 1] == "" || IsFlag(argv[i + 1]) {
          return Err(MissingValue(key));
        }
        assert rest[1] == argv[i + 1] && rest[2..] == argv[i + 2..];
        args := args[key := argv[i + 1]];
        i := i + 2;
      } else {
        assert rest[1..] == argv[i + 1..];
        i := i + 1;
      }
    }
    assert argv[i..] == [];
    r := Ok(args);
  }

  /** Every stored key was given as a flag followed by its value, or was
      already there. */
  lemma {:induction false} StoredKeysComeFromFlags(tokens: seq<string>, args: map<string, string>)
    requires ParseTokens(tokens, args).Ok?
    ensures var m := ParseTokens(tokens, args).value;
      forall k :: k in m ==>
        (k in args && m[k] == args[k]) || exists i :: 0 <= i < |tokens| - 1 && tokens[i] == "--" + k && tokens[i + 1] == m[k]
    decreases |tokens|
  {
    if tokens != [] {
      var m := ParseTokens(tokens, args).value;
      if IsFlag(tokens[0]) {
        var key := tokens[0][2..];
        assert tokens[0] == "--" + key;
        var args' := args[key := tokens[1]];
        StoredKeysComeFromFlags(tokens[2..], args');
        forall k | k in m && !(k in args && m[k] == args[k])
          ensures exists i :: 0 <= i < |tokens| - 1 && tokens[i] == "--" + k && tokens[i + 1] == m[k]
        {
          if exists j :: 0 <= j < |tokens[2..]| - 1 && tokens[2..][j] == "--" + k && tokens[2..][j + 1] == m[k] {
            var j :| 0 <= j < |tokens[2..]| - 1 && tokens[2..][j] == "--" + k && tokens[2..][j + 1] == m[k];
            assert tokens[j + 2] == "--" + k && tokens[j + 3] == m[k];
          } else if k == key {
            assert tokens[0] == "--" + k && tokens[1] == m[k];
          }
        }
      } else {
        StoredKeysComeFromFlags(tokens[1..], args);
        forall k | k in m && !(k in args && m[k] == args[k])
          ensures exists i :: 0 <= i < |tokens| - 1 && tokens[i] == "--" + k && tokens[i + 1] == m[k]
        {
          var j :| 0 <= j < |tokens[1..]| - 1 && tokens[1..][j] == "--" + k && tokens[1..][j + 1] == m[k];
          assert tokens[j + 1] == "--" + k && tokens[j + 2] == m[k];
        }
      }
    }
  }

  /** Tokens that are not flags are ignored: without any flag nothing is stored. */
  lemma {:induction false} NoFlagsNoArgs(tokens: seq<string>, args: map<string, string>)
    requires forall i :: 0 <= i < |tokens| ==> !IsFlag(tokens[i])
    ensures ParseTokens(tokens, args) == Ok(args)
    decreases |tokens|
  {
    if tokens != [] {
      NoFlagsNoArgs(tokens[1..], args);
    }
  }

  /** A pair stores its value, and the value is consumed: parsing goes on
      after it, so a repeated key keeps the last value given. */
  lemma PairStored(key: string, value: string, rest: seq<string>, args: map<string, string>)
    requires value != "" && !IsFlag(value)
    ensures ParseTokens(["--" + key, value] + rest, args) == ParseTokens(rest, args[key := value])
  {
    var tokens := ["--" + key, value] + rest;
    assert tokens[0][2..] == key;
    assert tokens[2..] == rest;
  }

  /** `--k a --k b` stores `b` under `k`. */
  lemma RepeatedKeyLastWins(key: string, a: string, b: string, args: map<string, string>)
    requires a != "" && !IsFlag(a) && b != "" && !IsFlag(b)
    ensures ParseTokens(["--" + key, a, "--" + key, b], args) == Ok(args[key := b])
  {
    PairStored(key, a, ["--" + key, b], args);
    assert ["--" + key, a, "--" + key, b] == ["--" + key, a] + ["--" + key, b];
    PairStored(key, b, [], args[key := a]);
    assert ["--" + key, b] == ["--" + key, b] + [];
    assert args[key := a][key := b] == args[key := b];
  }

  /** A flag with nothing after it, or followed by another flag or an empty
      token, stops the script naming that flag. */
  lemma MissingValueReported(key: string, next: seq<string>, args: map<string, string>)
    requires next == [] || next[0] == "" || IsFlag(next[0])
    ensures ParseTokens(["--" + key] + next, args) == Err(MissingValue(key))
  {
    assert (["--" + key] + next)[0][2..] == key;
  }

  /** Only the tokens after the script path are read. */
  lemma OnlyUserTokensRead(node: string, script: string, node2: string, script2: string, rest: seq<string>)
    ensures ParseTokens(UserTokens([node, script] + rest), map[]) == ParseTokens(UserTokens([node2, script2] + rest), map[])
  {
    assert UserTokens([node, script] + rest) == rest;
    assert UserTokens([node2, script2] + rest) == rest;
  }

  // ---- run: defaults and the usage check ----

  datatype AdminSettings = AdminSettings(email: string, password: string, username: string, name: string)

  /** `args[key] || ''`. */
  function Arg(args: map<string, string>, key: string): string {
    if key in args then args[key] else ""
  }

  /** The settings `run` derives: the email lower-cased, the username
      defaulting to the part of the email before `@`, the name to the
      username; a missing email or password is the usage error. */
  function Settings(args: map<string, string>): (r: Result<AdminSettings, ArgError>)
    ensures r.Err? <==> Arg(args, "email") == "" || Arg(args, "password") == ""
    ensures r.Ok? ==> r.value.password == args["password"]
  {
    var email := ToLowerAscii(Arg(args, "email"));
    var password := Arg(args, "password");
    var username := if Arg(args, "username") != "" then args["username"] else Split(email, '@')[0];
    var name := if Arg(args, "name") != "" then args["name"] else username;
    if email == "" || password == "" then Err(Usage)
    else Ok(AdminSettings(email, password, username, name))
  }

  /** The derived settings: a lower-case email, a default username that is
      the email up to its first `@`, and a default name that is the
      username. */
  lemma {:induction false} SettingsDefaults(args: map<string, string>)
    requires Settings(args).Ok?
    ensures var s := Settings(args).value;
      s.email == ToLowerAscii(args["email"])
      && |s.email| == |args["email"]| && (forall i :: 0 <= i < |s.email| ==> !('A' <= s.email[i] <= 'Z'))
      && (Arg(args, "username") == "" ==>
            StartsWith(s.email, s.username) && '@' !in s.username
            && (|s.username| == |s.email| || s.email[|s.username|] == '@'))
      && (Arg(args, "username") != "" ==> s.username == args["username"])
      && (Arg(args, "name") == "" ==> s.name == s.username)
      && (Arg(args, "name") != "" ==> s.name == args["name"])
  {
    var email := ToLowerAscii(args["email"]);
    SplitFirst(email, '@');
  }

  /** The check of the command line before any database work: the script
      goes on exactly when every flag has a value and both an email and a
      password were given. The earlier exit when `MONGODB_URI` is unset
      (bootstrapAdmin.js lines 8-11) comes before this and is not modelled. */
  function Prepare(argv: seq<string>): (r: Result<AdminSettings, ArgError>)
    ensures r.Ok? ==> ParseTokens(UserTokens(argv), map[]).Ok?
    ensures ParseTokens(UserTokens(argv), map[]).Err? ==> r == Err(ParseTokens(UserTokens(argv), map[]).error)
    ensures ParseTokens(UserTokens(argv), map[]).Ok? ==> r == Settings(ParseTokens(UserTokens(argv), map[]).value)
  {
    match ParseTokens(UserTokens(argv), map[])
    case Err(e) => Err(e)
    case Ok(args) => Settings(args)
  }

  /** A command line without a password is a usage error, even with an email. */
  lemma MissingPasswordIsUsage(email: string)
    requires email != "" && !IsFlag(email)
    ensures Prepare(["node", "bootstrapAdmin.js", "--email", email]) == Err(Usage)
  {
    var argv := ["node", "bootstrapAdmin.js", "--email", email];
    assert UserTokens(argv) == ["--email", email];
    assert "--" + "email" == "--email";
    var t := ["--" + "email", email];
    assert t + [] == t;
    PairStored("email", email, [], map[]);
  }
}
