/**
 * The relay's configuration record, its built-in defaults and the overrides it
 * takes from `OIS_*` environment variables, plus the redacted spelling of the
 * shared token that the start-up banner shows.
 */
module Configuration {
  import opened Wrappers
  import opened Text
  import opened Decimal

  /** The `CONFIG` record: one field per key. */
  datatype Settings = Settings(
    port: int,
    bindAddress: string,
    allowedSubnets: seq<string>,
    sharedToken: string,
    dryRun: bool,
    verbose: bool)

  /** The values the relay starts from before any override. */
  const DefaultSettings: Settings := Settings(
    51888,
    "0.0.0.0",
    ["10.211.55.0/24", "10.37.129.0/24"],
    "changeme123456",
    false,
    true)

  /** The process environment: variable names to their (string) values. */
  type Environment = map<string, string>

  /** `os.environ.get(key)`. */
  function Lookup(env: Environment, key: string): Option<string> {
    if key in env then Some(env[key]) else None
  }

  /** `os.environ.get(key)` where only a set, non-empty value counts (`if value:`). */
  function Given(env: Environment, key: string): Option<string> {
    match Lookup(env, key)
    case Some(v) => if v == "" then None else Some(v)
    case None => None
  }

  /** `os.environ.get(key, default).lower() == "true"`. */
  function Flag(env: Environment, key: string, default: string): bool {
    Lower(Lookup(env, key).GetOr(default)) == "true"
  }

  /** `[s.strip() for s in text.split(",") if s.strip()]`. */
  function SubnetList(text: string): seq<string> {
    StrippedEntries(Split(text, ','))
  }

  /** A list entry as the comprehension leaves it: non-empty, stripped, comma-free. */
  predicate IsEntry(e: string) {
    e != [] && Strip(e) == e && ',' !in e
  }

  /** The stripped pieces, in order, with the blank ones dropped. */
  function StrippedEntries(pieces: seq<string>): (entries: seq<string>)
    ensures |entries| <= |pieces|
  {
    if pieces == [] then []
    else
      var e := Strip(pieces[0]);
      var rest := StrippedEntries(pieces[1..]);
      if e == [] then rest else [e] + rest
  }

  /** Every entry the comprehension keeps is clean. */
  lemma {:induction false} StrippedEntriesClean(pieces: seq<string>)
    requires forall k :: 0 <= k < |pieces| ==> ',' !in pieces[k]
    ensures forall k :: 0 <= k < |StrippedEntries(pieces)| ==> IsEntry(StrippedEntries(pieces)[k])
  {
    if pieces != [] {
      var e := Strip(pieces[0]);
      var rest := StrippedEntries(pieces[1..]);
      StrippedEntriesClean(pieces[1..]);
      if e != [] {
        StripKeepsMiddle(pieces[0]);
        StripIdempotent(pieces[0]);
        StripAvoids(pieces[0], ',');
        var entries := StrippedEntries(pieces);
        assert entries == [e] + rest;
        forall k | 0 <= k < |entries| ensures IsEntry(entries[k]) {
          if k > 0 {
            assert entries[k] == rest[k - 1];
          }
        }
      }
    }
  }

  /** Every entry of the list is non-empty, stripped and free of commas. */
  lemma SubnetListClean(text: string)
    ensures forall k :: 0 <= k < |SubnetList(text)| ==> IsEntry(SubnetList(text)[k])
  {
    StrippedEntriesClean(Split(text, ','));
  }

  /** What `load_env_overrides` makes of the record `s` in the environment `env`. */
  function Overridden(s: Settings, env: Environment): Settings {
    Settings(
      port := match Given(env, "OIS_PORT")
              case Some(text) => ParseInt(text).GetOr(s.port)
              case None => s.port,
      bindAddress := Given(env, "OIS_BIND").GetOr(s.bindAddress),
      allowedSubnets := match Given(env, "OIS_ALLOWED_SUBNETS")
                        case Some(text) => SubnetList(text)
                        case None => s.allowedSubnets,
      sharedToken := Given(env, "OIS_TOKEN").GetOr(s.sharedToken),
      dryRun := Flag(env, "OIS_DRY_RUN", "false"),
      verbose := Flag(env, "OIS_VERBOSE", "true"))
  }

  /** The mutable `CONFIG` dictionary. */
  class Config {
    var port: int
    var bindAddress: string
    var allowedSubnets: seq<string>
    var sharedToken: string
    var dryRun: bool
    var verbose: bool

    /** The record as it stands. */
    function Snapshot(): Settings
      reads this
    {
      Settings(port, bindAddress, allowedSubnets, sharedToken, dryRun, verbose)
    }

    /** `CONFIG` as the module defines it. */
    constructor ()
      ensures Snapshot() == DefaultSettings
    {
      port := 51888;
      bindAddress := "0.0.0.0";
      allowedSubnets := ["10.211.55.0/24", "10.37.129.0/24"];
      sharedToken := "changeme123456";
      dryRun := false;
      verbose := true;
    }

    /** `load_env_overrides()`: each key is rewritten in turn. */
    method LoadEnvOverrides(env: Environment)
      modifies this
      ensures Snapshot() == Overridden(old(Snapshot()), env)
    {
      var portText := Given(env, "OIS_PORT");
      var bind := Given(env, "OIS_BIND");
      var token := Given(env, "OIS_TOKEN");
      var subnets := Given(env, "OIS_ALLOWED_SUBNETS");
      if portText.Some? {
        var parsed := ParseInt(portText.value);
        if parsed.Some? {
          port := parsed.value;
        }
      }
      if bind.Some? {
        bindAddress := bind.value;
      }
      if token.Some? {
        sharedToken := token.value;
      }
      if subnets.Some? {
        allowedSubnets := SubnetList(subnets.value);
      }
      dryRun := Flag(env, "OIS_DRY_RUN", "false");
      verbose := Flag(env, "OIS_VERBOSE", "true");
    }
  }

  /** With no `OIS_*` variables set the defaults stand. */
  lemma EmptyEnvironmentKeepsDefaults()
    ensures Overridden(DefaultSettings, map[]) == DefaultSettings
  {
    LowerIsTrue("false");
    LowerIsTrue("true");
  }

  /** Loading the overrides a second time changes nothing more. */
  lemma OverridesIdempotent(s: Settings, env: Environment)
    ensures Overridden(Overridden(s, env), env) == Overridden(s, env)
  {
  }

  /** The port changes only to a value `int()` reads from a non-empty `OIS_PORT`. */
  lemma PortChangesOnlyToParsedValue(s: Settings, env: Environment)
    ensures Overridden(s, env).port != s.port ==>
      "OIS_PORT" in env && env["OIS_PORT"] != "" && ParseInt(env["OIS_PORT"]) == Some(Overridden(s, env).port)
  {
  }

  /** A missing, empty or non-integer `OIS_PORT` leaves the port as it was. */
  lemma PortKeptUnlessInteger(s: Settings, env: Environment)
    requires "OIS_PORT" !in env || ParseInt(env["OIS_PORT"]).None?
    ensures Overridden(s, env).port == s.port
  {
  }

  /** `OIS_PORT` spelled as `str(n)` sets the port to `n`. */
  lemma PortFromDecimal(s: Settings, env: Environment, n: int)
    requires "OIS_PORT" in env && env["OIS_PORT"] == FormatInt(n)
    ensures Overridden(s, env).port == n
  {
    ParseFormatInt(n);
    assert FormatInt(n) != "" by {
      if n < 0 {
        assert |FormatInt(n)| == 1 + |FormatNat(-n)|;
      }
    }
  }

  /** `OIS_PORT` led by an ASCII separator U+001C to U+001F is refused by `int()`, so the port stays. */
  lemma PortKeptAfterSeparator(s: Settings, env: Environment, c: char, t: string)
    requires '\U{1C}' <= c <= '\U{1F}'
    requires "OIS_PORT" in env && env["OIS_PORT"] == [c] + t
    ensures Overridden(s, env).port == s.port
  {
    SeparatorRefused(c, t);
  }

  /** A set `OIS_ALLOWED_SUBNETS` replaces the list, otherwise the list stays. */
  lemma SubnetsOverride(s: Settings, env: Environment)
    ensures Overridden(s, env).allowedSubnets ==
      if "OIS_ALLOWED_SUBNETS" in env && env["OIS_ALLOWED_SUBNETS"] != "" then SubnetList(env["OIS_ALLOWED_SUBNETS"])
      else s.allowedSubnets
  {
  }

  /** `e` is the stripped form of one of the non-blank pieces. */
  predicate StrippedPiece(pieces: seq<string>, e: string) {
    e != [] && exists k :: 0 <= k < |pieces| && Strip(pieces[k]) == e
  }

  /** An entry of the list is exactly the stripped form of a non-blank piece. */
  lemma {:induction false} StrippedEntriesMembers(pieces: seq<string>, e: string)
    ensures e in StrippedEntries(pieces) <==> StrippedPiece(pieces, e)
  {
    if pieces != [] {
      var first := Strip(pieces[0]);
      var rest := pieces[1..];
      StrippedEntriesMembers(rest, e);
      StrippedPieceCons(pieces, e);
      assert StrippedEntries(pieces) == if first == [] then StrippedEntries(rest) else [first] + StrippedEntries(rest);
    }
  }

  /** Some piece strips to `e` when the first one does or one of the others does. */
  lemma StrippedPieceCons(pieces: seq<string>, e: string)
    requires pieces != []
    ensures StrippedPiece(pieces, e) <==> e != [] && (Strip(pieces[0]) == e || StrippedPiece(pieces[1..], e))
  {
    var rest := pieces[1..];
    if StrippedPiece(pieces, e) && Strip(pieces[0]) != e {
      var k :| 0 <= k < |pieces| && Strip(pieces[k]) == e;
      assert rest[k - 1] == pieces[k];
    }
    if StrippedPiece(rest, e) {
      var k :| 0 <= k < |rest| && Strip(rest[k]) == e;
      assert pieces[k + 1] == rest[k];
    }
  }

  /** An entry of the list is exactly a stripped, non-blank piece between commas. */
  lemma SubnetListMembers(text: string, e: string)
    ensures e in SubnetList(text) <==> StrippedPiece(Split(text, ','), e)
  {
    StrippedEntriesMembers(Split(text, ','), e);
  }

  /** Clean entries are kept as they are, in order. */
  lemma {:induction false} StrippedEntriesOfClean(entries: seq<string>)
    requires forall k :: 0 <= k < |entries| ==> entries[k] != [] && Strip(entries[k]) == entries[k] && ',' !in entries[k]
    ensures StrippedEntries(entries) == entries
  {
    if entries != [] {
      StrippedEntriesOfClean(entries[1..]);
      assert entries == [entries[0]] + entries[1..];
    }
  }

  /** A list of clean entries written out with commas between them reads back as itself. */
  lemma SubnetListOfJoin(entries: seq<string>)
    requires forall k :: 0 <= k < |entries| ==> IsEntry(entries[k])
    ensures SubnetList(Join(entries, ',')) == entries
  {
    if entries == [] {
      assert Split(Join(entries, ','), ',') == [[]];
    } else {
      SplitJoin(entries, ',');
      StrippedEntriesOfClean(entries);
    }
  }

  /** Dry run is on exactly when `OIS_DRY_RUN` is set to some spelling of "true". */
  lemma DryRunFlag(s: Settings, env: Environment)
    ensures Overridden(s, env).dryRun <==> "OIS_DRY_RUN" in env && SpellsTrue(env["OIS_DRY_RUN"])
  {
    LowerIsTrue(Lookup(env, "OIS_DRY_RUN").GetOr("false"));
  }

  /** Verbose logging is on unless `OIS_VERBOSE` is set to something other than "true". */
  lemma VerboseFlag(s: Settings, env: Environment)
    ensures Overridden(s, env).verbose <==> "OIS_VERBOSE" !in env || SpellsTrue(env["OIS_VERBOSE"])
  {
    LowerIsTrue(Lookup(env, "OIS_VERBOSE").GetOr("true"));
  }

  /** The environment can replace the token but never blank it. */
  lemma TokenNeverBlanked(s: Settings, env: Environment)
    ensures Overridden(s, env).sharedToken == "" ==> s.sharedToken == ""
    ensures "OIS_TOKEN" in env && env["OIS_TOKEN"] != "" ==> Overridden(s, env).sharedToken == env["OIS_TOKEN"]
  {
  }

  /** Starting from the defaults, the token check can never be switched off. */
  lemma LoadedTokenNonEmpty(env: Environment)
    ensures Overridden(DefaultSettings, env).sharedToken != ""
  {
    TokenNeverBlanked(DefaultSettings, env);
  }

  /** `redacted_token()`: how the banner shows the token. */
  function RedactedToken(token: string): (r: string)
    ensures |r| <= 7
  {
    if token == "" then "<empty>"
    else if |token| <= 4 then "***"
    else token[..2] + "***" + token[|token| - 2..]
  }

  /** The redaction of a long token keeps its first two and last two characters around "***". */
  lemma RedactedTokenShape(token: string)
    ensures token == "" ==> RedactedToken(token) == "<empty>"
    ensures 1 <= |token| <= 4 ==> RedactedToken(token) == "***"
    ensures |token| > 4 ==>
      var r := RedactedToken(token);
      |r| == 7 && r[..2] == token[..2] && r[2..5] == "***" && r[5..] == token[|token| - 2..]
  {
  }

  /** The redaction reveals nothing but the ends: tokens alike there redact alike. */
  lemma RedactionSeesOnlyEnds(t: string, u: string)
    requires |t| > 4 && |u| > 4
    requires t[..2] == u[..2] && t[|t| - 2..] == u[|u| - 2..]
    ensures RedactedToken(t) == RedactedToken(u)
  {
  }

  /** A set token is never shown as "<empty>", so the banner tells a set token from an unset one. */
  lemma RedactionShowsEmptiness(token: string)
    ensures RedactedToken(token) == "<empty>" <==> token == ""
  {
    if token != "" && |token| > 4 {
      assert RedactedToken(token)[2..5] == "***";
      assert "<empty>"[2..5] == "mpt";
    }
  }
}
