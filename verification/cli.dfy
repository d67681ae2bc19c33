/** The argument handling of scripts/createUser.js: `parseArgs` (a pass over `--key value`
    pairs, then a positional fallback) and the checks `main` makes before creating a user. */
module Cli {
  import opened Wrappers
  import opened Text
  import opened Records

  const MsgRequired := "Error: --username, --password and --role are required"
  const MsgBadRole := "Error: --role must be either \"admin\" or \"owner\""

  /** A parsed argument: a string value, or `true` for a flag given without one. */
  datatype Arg = Str(s: string) | Flag

  /** JavaScript truthiness of a parsed argument: `true` and non-empty strings. */
  predicate Truthy(a: Arg) {
    a.Flag? || a.s != ""
  }

  predicate IsFlagToken(t: string) {
    StartsWith(t, "--")
  }

  /** A token that can serve as a flag's value: present, non-empty, not itself a flag. */
  predicate IsValue(parts: seq<string>, j: int) {
    0 <= j < |parts| && parts[j] != "" && !IsFlagToken(parts[j])
  }

  /** The first pass of parseArgs from position `i` on, into `args`: a `--key` token takes
      the next token as its value when that is a value (and skips it), otherwise becomes
      `true`; other tokens are passed over. */
  function ScanFlags(parts: seq<string>, i: nat, args: map<string, Arg>): (r: map<string, Arg>)
    ensures args.Keys <= r.Keys
    decreases |parts| - i
  {
    if i >= |parts| then args
    else if !IsFlagToken(parts[i]) then ScanFlags(parts, i + 1, args)
    else
      var key := parts[i][2..];
      if IsValue(parts, i + 1) then ScanFlags(parts, i + 2, args[key := Str(parts[i + 1])])
      else ScanFlags(parts, i + 1, args[key := Flag])
  }

  /** Where the entries of the flag pass come from: every key from a `--key` token at or
      after `i` (or from `args`), every string value from the token right after such a
      flag, and every `true` from such a flag with no value after it. */
  lemma {:induction false} ScanFlagsSources(parts: seq<string>, i: nat, args: map<string, Arg>)
    ensures var r := ScanFlags(parts, i, args);
      forall k :: k in r ==> k in args || exists j :: i <= j < |parts| && parts[j] == "--" + k
    ensures var r := ScanFlags(parts, i, args);
      forall k :: k in r && r[k].Str? && !(k in args && r[k] == args[k]) ==>
        exists j :: i <= j < |parts| - 1 && parts[j] == "--" + k && parts[j + 1] == r[k].s && IsValue(parts, j + 1)
    ensures var r := ScanFlags(parts, i, args);
      forall k :: k in r && r[k].Flag? && !(k in args && args[k].Flag?) ==>
        exists j :: i <= j < |parts| && parts[j] == "--" + k && !IsValue(parts, j + 1)
    decreases |parts| - i
  {
    if i >= |parts| {
    } else if !IsFlagToken(parts[i]) {
      ScanFlagsSources(parts, i + 1, args);
    } else {
      var key := parts[i][2..];
      assert parts[i] == "--" + key;
      if IsValue(parts, i + 1) {
        ScanFlagsSources(parts, i + 2, args[key := Str(parts[i + 1])]);
      } else {
        ScanFlagsSources(parts, i + 1, args[key := Flag]);
      }
    }
  }

  function ParseFlags(parts: seq<string>): map<string, Arg> {
    ScanFlags(parts, 0, map[])
  }

  /** `parts.filter(p => !p.startsWith("--"))`: every token that is not a flag, values
      consumed by flags included. */
  function NonFlags(parts: seq<string>): (r: seq<string>)
    ensures forall t :: t in r <==> t in parts && !IsFlagToken(t)
    ensures |r| <= |parts|
    ensures |parts| == 1 ==> r == if IsFlagToken(parts[0]) then [] else parts
  {
    if parts == [] then []
    else (if IsFlagToken(parts[0]) then [] else [parts[0]]) + NonFlags(parts[1..])
  }

  /** The bare tokens of two command lines put together are those of each, in order. */
  lemma {:induction false} NonFlagsAppend(a: seq<string>, b: seq<string>)
    ensures NonFlags(a + b) == NonFlags(a) + NonFlags(b)
    decreases |a|
  {
    if a == [] {
      assert a + b == b;
    } else {
      var t, rest := a[0], a[1..];
      assert a == [t] + rest;
      assert a + b == [t] + (rest + b);
      var head := if IsFlagToken(t) then [] else [t];
      NonFlagsCons(t, rest);
      NonFlagsCons(t, rest + b);
      NonFlagsAppend(rest, b);
      ConcatAssoc(head, NonFlags(rest), NonFlags(b));
    }
  }

  lemma ConcatAssoc(x: seq<string>, y: seq<string>, z: seq<string>)
    ensures x + (y + z) == (x + y) + z
  {
  }

  /** The bare tokens of a command line are those of its first token, then those of the rest. */
  lemma NonFlagsCons(t: string, rest: seq<string>)
    ensures NonFlags([t] + rest) == (if IsFlagToken(t) then [] else [t]) + NonFlags(rest)
  {
    assert ([t] + rest)[1..] == rest;
  }

  /** The fourth bare token sets messId only when it is there and non-empty. */
  predicate HasFourth(rest: seq<string>) {
    |rest| > 3 && rest[3] != ""
  }

  /** parseArgs: the flag pass, then, when no `--username` was given and at least three
      tokens are not flags, the first three of those as username, password and role, and a
      non-empty fourth as messId. */
  function ParseArgs(parts: seq<string>): (r: map<string, Arg>)
    ensures var flags := ParseFlags(parts);
      var rest := NonFlags(parts);
      if "username" !in flags && |rest| >= 3 then
        && r.Keys == flags.Keys + {"username", "password", "role"} + (if HasFourth(rest) then {"messId"} else {})
        && r["username"] == Str(rest[0]) && r["password"] == Str(rest[1]) && r["role"] == Str(rest[2])
        && ("messId" in r ==> r["messId"] == if HasFourth(rest) then Str(rest[3]) else flags["messId"])
        && (forall k :: k in flags && k !in {"username", "password", "role", "messId"} ==> r[k] == flags[k])
      else r == flags
  {
    var flags := ParseFlags(parts);
    var rest := NonFlags(parts);
    if "username" !in flags && |rest| >= 3 then
      var positional := flags["username" := Str(rest[0])]["password" := Str(rest[1])]["role" := Str(rest[2])];
      if HasFourth(rest) then positional["messId" := Str(rest[3])] else positional
    else flags
  }

  /** What main goes on to create (or preview, in dry mode). */
  datatype Request = Request(username: Arg, password: Arg, role: Role, messId: Option<Arg>, dry: bool)

  predicate Given(args: map<string, Arg>, key: string) {
    key in args && Truthy(args[key])
  }

  /** The checks of main: username, password and role must be truthy, the role must be the
      string "admin" or "owner"; dry mode is `--dry` alone or `--dry true`. */
  function Validate(args: map<string, Arg>): (r: Result<Request>)
    ensures r == Err(Failure(1, MsgRequired)) <==> !(Given(args, "username") && Given(args, "password") && Given(args, "role"))
    ensures r.Ok? <==>
      Given(args, "username") && Given(args, "password") && Given(args, "role")
      && args["role"] in {Str("admin"), Str("owner")}
    ensures r.Ok? ==>
      && r.value.username == args["username"] && r.value.password == args["password"]
      && (r.value.role == Admin <==> args["role"] == Str("admin"))
      && (r.value.dry <==> "dry" in args && args["dry"] in {Flag, Str("true")})
      && (r.value.messId.Some? <==> Given(args, "messId"))
    ensures r.Err? ==> r.failure in {Failure(1, MsgRequired), Failure(1, MsgBadRole)}
  {
    if !(Given(args, "username") && Given(args, "password") && Given(args, "role")) then Err(Failure(1, MsgRequired))
    else if args["role"] != Str("admin") && args["role"] != Str("owner") then Err(Failure(1, MsgBadRole))
    else
      Ok(Request(args["username"], args["password"], if args["role"] == Str("admin") then Admin else Owner,
                 if Given(args, "messId") then Some(args["messId"]) else None,
                 "dry" in args && (args["dry"] == Flag || args["dry"] == Str("true"))))
  }

  /** Every parsed key names a `--key` token of the command line. */
  lemma KeysComeFromFlags(parts: seq<string>)
    ensures forall k :: k in ParseFlags(parts) ==> exists j :: 0 <= j < |parts| && parts[j] == "--" + k
  {
    ScanFlagsSources(parts, 0, map[]);
  }

  /** Every value of the flag pass is truthy, so `!args.username` holds exactly when no
      `--username` was parsed. */
  lemma ParsedValuesTruthy(parts: seq<string>)
    ensures forall k :: k in ParseFlags(parts) ==> Truthy(ParseFlags(parts)[k])
  {
    ScanFlagsSources(parts, 0, map[]);
  }

  lemma FlagToken(key: string)
    ensures IsFlagToken("--" + key) && ("--" + key)[2..] == key
  {
  }

  lemma BareToken(t: string)
    requires t == "" || t[0] != '-'
    ensures !IsFlagToken(t)
  {
    if |t| >= 2 {
      assert t[..2][0] == t[0];
    }
  }

  /** One step of the flag pass over a `--key value` pair. */
  lemma ScanPair(parts: seq<string>, i: nat, key: string, args: map<string, Arg>)
    requires IsValue(parts, i + 1) && parts[i] == "--" + key
    ensures ScanFlags(parts, i, args) == ScanFlags(parts, i + 2, args[key := Str(parts[i + 1])])
  {
    FlagToken(key);
  }

  /** One step of the flag pass over a `--key` with no value after it. */
  lemma ScanBare(parts: seq<string>, i: nat, key: string, args: map<string, Arg>)
    requires i < |parts| && parts[i] == "--" + key
    requires i + 1 == |parts| || parts[i + 1] == "" || IsFlagToken(parts[i + 1])
    ensures ScanFlags(parts, i, args) == ScanFlags(parts, i + 1, args[key := Flag])
  {
    FlagToken(key);
  }

  /** Keys and values are taken pair by pair. */
  lemma PairsExample()
    ensures ParseFlags(["--username", "alice", "--password", "secret1", "--role", "owner"])
         == map["username" := Str("alice"), "password" := Str("secret1"), "role" := Str("owner")]
  {
    var parts := ["--username", "alice", "--password", "secret1", "--role", "owner"];
    BareToken("alice");
    BareToken("secret1");
    BareToken("owner");
    ScanPair(parts, 0, "username", map[]);
    ScanPair(parts, 2, "password", map["username" := Str("alice")]);
    ScanPair(parts, 4, "role", map["username" := Str("alice"), "password" := Str("secret1")]);
  }

  /** The flag pass reads a command line after a prefix `q` as it reads it alone. */
  lemma {:induction false} ScanShift(q: seq<string>, p: seq<string>, i: nat, args: map<string, Arg>)
    ensures ScanFlags(q + p, |q| + i, args) == ScanFlags(p, i, args)
    decreases |p| - i
  {
    var qp := q + p;
    if i < |p| {
      assert qp[|q| + i] == p[i];
      assert IsValue(qp, |q| + i + 1) == IsValue(p, i + 1) by {
        if i + 1 < |p| { assert qp[|q| + i + 1] == p[i + 1]; }
      }
      if IsFlagToken(p[i]) && IsValue(p, i + 1) {
        ScanShift(q, p, i + 2, args[p[i][2..] := Str(p[i + 1])]);
        assert |q| + (i + 2) == |q| + i + 2;
      } else if IsFlagToken(p[i]) {
        ScanShift(q, p, i + 1, args[p[i][2..] := Flag]);
      } else {
        ScanShift(q, p, i + 1, args);
      }
    }
  }

  /** A token that is not a flag, put in front, is passed over. */
  lemma StrayTokenIgnored(t: string, p: seq<string>)
    requires !IsFlagToken(t)
    ensures ParseFlags([t] + p) == ParseFlags(p)
  {
    ScanShift([t], p, 0, map[]);
  }

  /** The flag pass over `p + q` is the pass over `p` carried on over `q`, when `q` does
      not start with a token that a trailing flag of `p` would take as its value. */
  lemma {:induction false} ScanAppend(p: seq<string>, q: seq<string>, i: nat, args: map<string, Arg>)
    requires i <= |p|
    requires !IsValue(q, 0)
    ensures ScanFlags(p + q, i, args) == ScanFlags(q, 0, ScanFlags(p, i, args))
    decreases |p| - i
  {
    var pq := p + q;
    if i == |p| {
      ScanShift(p, q, 0, args);
    } else {
      assert pq[i] == p[i];
      assert IsValue(pq, i + 1) == IsValue(p, i + 1) by {
        if i + 1 < |p| { assert pq[i + 1] == p[i + 1]; }
        else if |q| > 0 { assert pq[i + 1] == q[0]; }
      }
      if IsFlagToken(p[i]) && IsValue(p, i + 1) {
        ScanAppend(p, q, i + 2, args[p[i][2..] := Str(p[i + 1])]);
      } else if IsFlagToken(p[i]) {
        ScanAppend(p, q, i + 1, args[p[i][2..] := Flag]);
      } else {
        ScanAppend(p, q, i + 1, args);
      }
    }
  }

  /** A `--key value` pair at the end overrides whatever came before for that key. */
  lemma LastValueWins(p: seq<string>, key: string, v: string)
    requires v != "" && !IsFlagToken(v)
    ensures ParseFlags(p + ["--" + key, v]) == ParseFlags(p)[key := Str(v)]
  {
    var q := ["--" + key, v];
    FlagToken(key);
    ScanAppend(p, q, 0, map[]);
    ScanPair(q, 0, key, ParseFlags(p));
  }

  /** A `--key` at the end, with nothing after it, sets the key to `true`. */
  lemma TrailingFlag(p: seq<string>, key: string)
    ensures ParseFlags(p + ["--" + key]) == ParseFlags(p)[key := Flag]
  {
    var q := ["--" + key];
    FlagToken(key);
    ScanAppend(p, q, 0, map[]);
    ScanBare(q, 0, key, ParseFlags(p));
  }

  /** A flag followed by another flag, by an empty token, or by nothing becomes `true`. */
  lemma BareFlagExamples()
    ensures ParseFlags(["--dry", "--role", "admin"]) == map["dry" := Flag, "role" := Str("admin")]
    ensures ParseFlags(["--role", "", "--dry"]) == map["role" := Flag, "dry" := Flag]
  {
    var a := ["--dry", "--role", "admin"];
    FlagToken("role");
    BareToken("admin");
    ScanBare(a, 0, "dry", map[]);
    ScanPair(a, 1, "role", map["dry" := Flag]);
    var b := ["--role", "", "--dry"];
    ScanBare(b, 0, "role", map[]);
    BareToken("");
    assert ScanFlags(b, 1, map["role" := Flag]) == ScanFlags(b, 2, map["role" := Flag]);
    ScanBare(b, 2, "dry", map["role" := Flag]);
  }

  /** Positional form: three bare tokens fill username, password and role. */
  lemma PositionalExample()
    ensures ParseArgs(["alice", "secret1", "admin"])
         == map["username" := Str("alice"), "password" := Str("secret1"), "role" := Str("admin")]
    ensures Validate(ParseArgs(["alice", "secret1", "admin"]))
         == Ok(Request(Str("alice"), Str("secret1"), Admin, None, false))
  {
    var parts := ["alice", "secret1", "admin"];
    BareToken("alice");
    BareToken("secret1");
    BareToken("admin");
    assert ParseFlags(parts) == map[];
    assert NonFlags(parts) == parts by {
      assert NonFlags(["admin"]) == ["admin"];
      assert ["secret1", "admin"][1..] == ["admin"];
      assert parts[1..] == ["secret1", "admin"];
    }
  }

  /** Values taken by flags still count as bare tokens: `--password x a b` has no
      `--username`, so x, a and b become username, password and role. */
  lemma ConsumedValuesStillPositional()
    ensures ParseArgs(["--password", "x", "a", "b"])
         == map["username" := Str("x"), "password" := Str("a"), "role" := Str("b")]
  {
    var parts := ["--password", "x", "a", "b"];
    ConsumedFlags(parts);
    ConsumedBare(parts);
    var flags := map["password" := Str("x")];
    assert "username" !in flags;
    assert flags["username" := Str("x")]["password" := Str("a")]["role" := Str("b")]
        == map["username" := Str("x"), "password" := Str("a"), "role" := Str("b")];
  }

  lemma ConsumedFlags(parts: seq<string>)
    requires parts == ["--password", "x", "a", "b"]
    ensures ParseFlags(parts) == map["password" := Str("x")]
  {
    var flags := map["password" := Str("x")];
    FlagToken("password");
    BareToken("x");
    BareToken("a");
    BareToken("b");
    ScanPair(parts, 0, "password", map[]);
    assert ScanFlags(parts, 3, flags) == ScanFlags(parts, 4, flags) == flags;
    assert ScanFlags(parts, 2, flags) == ScanFlags(parts, 3, flags);
  }

  lemma ConsumedBare(parts: seq<string>)
    requires parts == ["--password", "x", "a", "b"]
    ensures NonFlags(parts) == ["x", "a", "b"]
  {
    FlagToken("password");
    BareToken("x");
    BareToken("a");
    BareToken("b");
    assert parts == ["--password"] + ["x", "a", "b"];
    NonFlagsCons("--password", ["x", "a", "b"]);
    assert ["x", "a", "b"] == ["x"] + ["a", "b"];
    NonFlagsCons("x", ["a", "b"]);
    assert ["a", "b"] == ["a"] + ["b"];
    NonFlagsCons("a", ["b"]);
  }

  /** The checks of main over any command line: with `--username` given they see the flags
      alone; otherwise fewer than three bare tokens, or an empty one among the first three,
      leave the required fields missing, and
      with three or more the request goes ahead exactly when the first two are non-empty and
      the third is "admin" or "owner", taking its fields from those tokens. */
  lemma ValidateParsed(parts: seq<string>)
    ensures
      var flags := ParseFlags(parts);
      var rest := NonFlags(parts);
      var r := Validate(ParseArgs(parts));
      && ("username" in flags ==> r == Validate(flags))
      && ("username" !in flags && |rest| < 3 ==> r == Err(Failure(1, MsgRequired)))
      && ("username" !in flags && |rest| >= 3 ==>
            && (r == Err(Failure(1, MsgRequired)) <==> "" in rest[..3])
            && (r.Ok? <==> rest[0] != "" && rest[1] != "" && rest[2] in {"admin", "owner"})
            && (r.Ok? ==> && r.value.username == Str(rest[0]) && r.value.password == Str(rest[1])
                          && (r.value.role == Admin <==> rest[2] == "admin")))
  {
  }

  /** A role outside admin and owner, or a bare `--role`, is turned away. */
  lemma RoleExamples()
    ensures Validate(map["username" := Str("u"), "password" := Str("p"), "role" := Str("manager")]) == Err(Failure(1, MsgBadRole))
    ensures Validate(map["username" := Str("u"), "password" := Str("p"), "role" := Flag]) == Err(Failure(1, MsgBadRole))
    ensures Validate(map["username" := Str("u"), "role" := Str("owner")]) == Err(Failure(1, MsgRequired))
  {
  }
}
