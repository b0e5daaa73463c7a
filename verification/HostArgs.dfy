/** Rendering a container's host capabilities as command line arguments for Wasmtime. */
module HostArgs {
  import opened Base

  datatype HostEnvVar = HostEnvVar(name: string, value: Option<string>)

  datatype HostEnv = HostEnv(inherit: bool, vars: seq<HostEnvVar>)

  datatype HostConfigVar = HostConfigVar(name: string, value: string)

  datatype HostConfig = HostConfig(vars: seq<HostConfigVar>)

  datatype HostNetwork = HostNetwork(inherit: bool, ipNameLookup: bool)

  datatype HostCapabilities = HostCapabilities(env: Option<HostEnv>, config: Option<HostConfig>, network: Option<HostNetwork>)

  const INHERIT_ENV := "-Sinherit-env=y"
  const ENV := "--env="
  const CONFIG := "-Sconfig=y"
  const CONFIG_VAR := "-Sconfig-var="
  const INHERIT_NETWORK := "-Sinherit-network=y"
  const IP_NAME_LOOKUP := "-Sallow-ip-name-lookup=y"

  function EnvArg(v: HostEnvVar): string {
    ENV + v.name + if v.value.Some? then "=" + v.value.value else ""
  }

  function ConfigArg(v: HostConfigVar): string {
    CONFIG_VAR + v.name + ("=" + v.value)
  }

  function EnvArgs(vars: seq<HostEnvVar>): seq<string> {
    seq(|vars|, i requires 0 <= i < |vars| => EnvArg(vars[i]))
  }

  function ConfigArgs(vars: seq<HostConfigVar>): seq<string> {
    seq(|vars|, i requires 0 <= i < |vars| => ConfigArg(vars[i]))
  }

  function Flag(on: bool, arg: string): seq<string> { if on then [arg] else [] }

  function AllEnvArgs(c: HostEnv): seq<string> { Flag(c.inherit, INHERIT_ENV) + EnvArgs(c.vars) }

  function AllConfigArgs(c: HostConfig): seq<string> { [CONFIG] + ConfigArgs(c.vars) }

  function NetworkArgs(c: HostNetwork): seq<string> { Flag(c.inherit, INHERIT_NETWORK) + Flag(c.ipNameLookup, IP_NAME_LOOKUP) }

  function Args(c: HostCapabilities): seq<string> {
    (if c.env.Some? then AllEnvArgs(c.env.value) else [])
    + (if c.config.Some? then AllConfigArgs(c.config.value) else [])
    + (if c.network.Some? then NetworkArgs(c.network.value) else [])
  }

  /** The inherit flag if set, then one argument for each variable. */
  predicate RendersEnv(c: HostEnv, args: seq<string>) {
    var k := if c.inherit then 1 else 0;
    && |args| == k + |c.vars| && (c.inherit ==> args[0] == "-Sinherit-env=y")
    && forall i :: 0 <= i < |c.vars| ==>
         args[k + i] == if c.vars[i].value.Some? then "--env=" + c.vars[i].name + "=" + c.vars[i].value.value else "--env=" + c.vars[i].name
  }

  /** The config flag, then one argument for each variable. */
  predicate RendersConfig(c: HostConfig, args: seq<string>) {
    && |args| == 1 + |c.vars| && args[0] == "-Sconfig=y"
    && forall i :: 0 <= i < |c.vars| ==> args[1 + i] == "-Sconfig-var=" + c.vars[i].name + "=" + c.vars[i].value
  }

  predicate RendersNetwork(c: HostNetwork, args: seq<string>) {
    match (c.inherit, c.ipNameLookup)
    case (true, true) => args == ["-Sinherit-network=y", "-Sallow-ip-name-lookup=y"]
    case (true, false) => args == ["-Sinherit-network=y"]
    case (false, true) => args == ["-Sallow-ip-name-lookup=y"]
    case (false, false) => args == []
  }

  /** The environment's arguments, the config's and the network's, each absent with its capability. */
  predicate RendersAs(c: HostCapabilities, env: seq<string>, config: seq<string>, network: seq<string>) {
    && (if c.env.Some? then RendersEnv(c.env.value, env) else env == [])
    && (if c.config.Some? then RendersConfig(c.config.value, config) else config == [])
    && (if c.network.Some? then RendersNetwork(c.network.value, network) else network == [])
  }

  ghost predicate Renders(c: HostCapabilities, args: seq<string>) {
    exists env, config, network :: RendersAs(c, env, config, network) && args == env + config + network
  }

  lemma Regroup(a: string, b: string, c: string)
    ensures a + b + c == a + (b + c)
  {}

  lemma EnvRendered(c: HostEnv)
    ensures RendersEnv(c, AllEnvArgs(c))
  {
    forall i | 0 <= i < |c.vars|
      ensures EnvArg(c.vars[i]) ==
                if c.vars[i].value.Some? then "--env=" + c.vars[i].name + "=" + c.vars[i].value.value else "--env=" + c.vars[i].name
    {
      EnvArgSpelled(c.vars[i]);
    }
    assert EnvArgs(c.vars) == AllEnvArgs(c)[if c.inherit then 1 else 0..];
  }

  lemma EnvArgSpelled(v: HostEnvVar)
    ensures EnvArg(v) == if v.value.Some? then "--env=" + v.name + "=" + v.value.value else "--env=" + v.name
  {
    if v.value.Some? {
      Regroup("--env=" + v.name, "=", v.value.value);
    } else {
      assert "--env=" + v.name + "" == "--env=" + v.name;
    }
  }

  lemma ConfigRendered(c: HostConfig)
    ensures RendersConfig(c, AllConfigArgs(c))
  {
    forall i | 0 <= i < |c.vars| ensures ConfigArg(c.vars[i]) == "-Sconfig-var=" + c.vars[i].name + "=" + c.vars[i].value {
      Regroup("-Sconfig-var=" + c.vars[i].name, "=", c.vars[i].value);
    }
  }

  lemma NetworkRendered(c: HostNetwork)
    ensures RendersNetwork(c, NetworkArgs(c))
  {}

  lemma ArgsRendered(c: HostCapabilities)
    ensures Renders(c, Args(c))
  {
    var env := if c.env.Some? then AllEnvArgs(c.env.value) else [];
    var config := if c.config.Some? then AllConfigArgs(c.config.value) else [];
    var network := if c.network.Some? then NetworkArgs(c.network.value) else [];
    if c.env.Some? {
      EnvRendered(c.env.value);
    }
    if c.config.Some? {
      ConfigRendered(c.config.value);
    }
    if c.network.Some? {
      NetworkRendered(c.network.value);
    }
    assert RendersAs(c, env, config, network);
  }

  method EnvWasmtimeArgs(c: HostEnv) returns (args: seq<string>)
    ensures args == AllEnvArgs(c)
  {
    args := [];
    if c.inherit {
      args := args + [INHERIT_ENV];
    }
    ghost var before := args;
    for i := 0 to |c.vars|
      invariant args == before + EnvArgs(c.vars[..i])
    {
      assert EnvArgs(c.vars[..i + 1]) == EnvArgs(c.vars[..i]) + [EnvArg(c.vars[i])];
      args := args + [EnvArg(c.vars[i])];
    }
    assert c.vars[..|c.vars|] == c.vars;
  }

  method ConfigWasmtimeArgs(c: HostConfig) returns (args: seq<string>)
    ensures args == AllConfigArgs(c)
  {
    args := [CONFIG];
    for i := 0 to |c.vars|
      invariant args == [CONFIG] + ConfigArgs(c.vars[..i])
    {
      assert ConfigArgs(c.vars[..i + 1]) == ConfigArgs(c.vars[..i]) + [ConfigArg(c.vars[i])];
      args := args + [ConfigArg(c.vars[i])];
    }
    assert c.vars[..|c.vars|] == c.vars;
  }

  /** `HostCapabilities.WasmtimeArgs`. */
  method WasmtimeArgs(c: HostCapabilities) returns (args: seq<string>)
    ensures args == Args(c)
    ensures Renders(c, args)
  {
    args := JoinArgs(c);
    ArgsRendered(c);
  }

  method JoinArgs(c: HostCapabilities) returns (args: seq<string>)
    ensures args == Args(c)
  {
    args := [];
    if c.env.Some? {
      var env := EnvWasmtimeArgs(c.env.value);
      args := args + env;
    }
    if c.config.Some? {
      var config := ConfigWasmtimeArgs(c.config.value);
      args := args + config;
    }
    if c.network.Some? {
      args := args + NetworkArgs(c.network.value);
    }
  }

  // ---------------------------------------------------------------- reading the arguments back

  /** What a list of arguments asks of the host. */
  datatype Meaning = Meaning(
    inheritEnv: bool,
    env: seq<HostEnvVar>,
    config: bool,
    configVars: seq<HostConfigVar>,
    inheritNetwork: bool,
    ipNameLookup: bool)

  const NOTHING := Meaning(false, [], false, [], false, false)

  function MeaningOf(c: HostCapabilities): Meaning {
    Meaning(
      c.env.Some? && c.env.value.inherit,
      if c.env.Some? then c.env.value.vars else [],
      c.config.Some?,
      if c.config.Some? then c.config.value.vars else [],
      c.network.Some? && c.network.value.inherit,
      c.network.Some? && c.network.value.ipNameLookup)
  }

  predicate NoEquals(s: string) { forall i :: 0 <= i < |s| ==> s[i] != '=' }

  /** The first equals sign, the length of the string if there is none. */
  function FirstEquals(s: string): (n: nat)
    ensures n <= |s| && NoEquals(s[..n]) && (n < |s| ==> s[n] == '=')
  {
    if s == "" || s[0] == '=' then 0
    else
      var n := FirstEquals(s[1..]);
      assert s[..n + 1] == [s[0]] + s[1..][..n];
      n + 1
  }

  predicate Starts(arg: string, prefix: string) { |prefix| <= |arg| && arg[..|prefix|] == prefix }

  /** What follows the prefix of an environment argument, split at the first equals sign. */
  function ReadEnv(rest: string): HostEnvVar {
    var n := FirstEquals(rest);
    if n == |rest| then HostEnvVar(rest, None) else HostEnvVar(rest[..n], Some(rest[n + 1..]))
  }

  function ReadConfig(rest: string): HostConfigVar {
    var n := FirstEquals(rest);
    HostConfigVar(rest[..n], if n < |rest| then rest[n + 1..] else "")
  }

  function DecodeOne(m: Meaning, arg: string): Meaning {
    if arg == INHERIT_ENV then m.(inheritEnv := true)
    else if arg == CONFIG then m.(config := true)
    else if arg == INHERIT_NETWORK then m.(inheritNetwork := true)
    else if arg == IP_NAME_LOOKUP then m.(ipNameLookup := true)
    else if Starts(arg, ENV) then m.(env := m.env + [ReadEnv(arg[|ENV|..])])
    else if Starts(arg, CONFIG_VAR) then m.(configVars := m.configVars + [ReadConfig(arg[|CONFIG_VAR|..])])
    else m
  }

  function Decode(m: Meaning, args: seq<string>): Meaning {
    if args == [] then m else DecodeOne(Decode(m, args[..|args| - 1]), args[|args| - 1])
  }

  predicate EnvNamesPlain(vars: seq<HostEnvVar>) { forall i :: 0 <= i < |vars| ==> NoEquals(vars[i].name) }

  predicate ConfigNamesPlain(vars: seq<HostConfigVar>) { forall i :: 0 <= i < |vars| ==> NoEquals(vars[i].name) }

  /** No variable name contains an equals sign. Validation does not check this. */
  predicate NamesPlain(c: HostCapabilities) {
    && (c.env.Some? ==> EnvNamesPlain(c.env.value.vars))
    && (c.config.Some? ==> ConfigNamesPlain(c.config.value.vars))
  }

  lemma FirstEqualsOf(name: string, rest: string)
    requires NoEquals(name) && (rest == "" || rest[0] == '=')
    ensures FirstEquals(name + rest) == |name|
  {
    var s := name + rest;
    var n := FirstEquals(s);
    assert forall k :: 0 <= k < |name| ==> s[k] == name[k];
    assert rest != "" ==> s[|name|] == rest[0];
    assert forall k :: 0 <= k < n ==> s[..n][k] == s[k];
  }

  function EnvTail(v: HostEnvVar): string { if v.value.Some? then "=" + v.value.value else "" }

  lemma Prefixed(prefix: string, rest: string)
    ensures (prefix + rest)[..|prefix|] == prefix && (prefix + rest)[|prefix|..] == rest
    ensures forall k :: 0 <= k < |prefix| ==> (prefix + rest)[k] == prefix[k]
  {}

  lemma EnvArgRecognised(m: Meaning, v: HostEnvVar)
    ensures DecodeOne(m, EnvArg(v)) == m.(env := m.env + [ReadEnv(v.name + EnvTail(v))])
  {
    var arg := EnvArg(v);
    assert arg == ENV + (v.name + EnvTail(v));
    Prefixed(ENV, v.name + EnvTail(v));
    assert arg[1] == '-' && INHERIT_ENV[1] == CONFIG[1] == INHERIT_NETWORK[1] == IP_NAME_LOOKUP[1] == 'S';
  }

  lemma NotAFlag(arg: string)
    requires |arg| > 8 && arg[1] == 'S' && arg[2] == 'c' && arg[8] == '-'
    ensures arg != INHERIT_ENV && arg != CONFIG && arg != INHERIT_NETWORK && arg != IP_NAME_LOOKUP && !Starts(arg, ENV)
  {
    assert arg != INHERIT_ENV by { assert INHERIT_ENV[2] == 'i'; }
    assert arg != CONFIG by { assert CONFIG[8] == '='; }
    assert arg != INHERIT_NETWORK by { assert INHERIT_NETWORK[2] == 'i'; }
    assert arg != IP_NAME_LOOKUP by { assert IP_NAME_LOOKUP[2] == 'a'; }
    assert !Starts(arg, ENV) by { assert arg[..|ENV|][1] == arg[1] && ENV[1] == '-'; }
  }

  lemma ConfigArgRecognised(m: Meaning, v: HostConfigVar)
    ensures DecodeOne(m, ConfigArg(v)) == m.(configVars := m.configVars + [ReadConfig(v.name + ("=" + v.value))])
  {
    var arg, rest := ConfigArg(v), v.name + ("=" + v.value);
    assert arg == CONFIG_VAR + rest;
    Prefixed(CONFIG_VAR, rest);
    assert arg[8] == '-' && arg[1] == 'S' && arg[2] == 'c';
    NotAFlag(arg);
  }

  lemma NamePart(name: string, tail: string, n: nat)
    requires n <= |name + tail| && NoEquals((name + tail)[..n])
    ensures (name + tail)[..n] == name ==> NoEquals(name)
  {}

  /** A variable is read back as itself exactly when its name is plain. */
  lemma ReadEnvExactly(v: HostEnvVar)
    ensures ReadEnv(v.name + EnvTail(v)) == v <==> NoEquals(v.name)
  {
    var s := v.name + EnvTail(v);
    var n := FirstEquals(s);
    assert s[..|s|] == s;
    NamePart(v.name, EnvTail(v), n);
    if NoEquals(v.name) {
      FirstEqualsOf(v.name, EnvTail(v));
      assert s[..|v.name|] == v.name;
      if v.value.Some? {
        assert s[|v.name| + 1..] == v.value.value;
      } else {
        assert s == v.name;
      }
    }
  }

  lemma ReadConfigExactly(v: HostConfigVar)
    ensures ReadConfig(v.name + ("=" + v.value)) == v <==> NoEquals(v.name)
  {
    var s := v.name + ("=" + v.value);
    if NoEquals(v.name) {
      FirstEqualsOf(v.name, "=" + v.value);
      assert s[..|v.name|] == v.name && s[|v.name| + 1..] == v.value;
    }
  }

  lemma {:induction false} DecodeAppend(m: Meaning, a: seq<string>, b: seq<string>)
    ensures Decode(m, a + b) == Decode(Decode(m, a), b)
    decreases |b|
  {
    if b == [] {
      assert a + b == a;
    } else {
      assert (a + b)[..|a + b| - 1] == a + b[..|b| - 1];
      DecodeAppend(m, a, b[..|b| - 1]);
    }
  }

  /** Lists that grow by one agree exactly when their beginnings and their ends do. */
  lemma GrownEqual<T>(base: seq<T>, init: seq<T>, last: T, shorter: seq<T>, read: T)
    requires |shorter| == |base| + |init|
    ensures shorter + [read] == base + (init + [last]) <==> shorter == base + init && read == last
  {
    var longer, whole := shorter + [read], base + (init + [last]);
    assert whole == (base + init) + [last];
    assert longer[..|shorter|] == shorter && longer[|shorter|] == read;
    assert whole[..|shorter|] == base + init && whole[|shorter|] == last;
  }

  lemma {:induction false} DecodeEnv(m: Meaning, vars: seq<HostEnvVar>)
    ensures Decode(m, EnvArgs(vars)).(env := m.env) == m && |Decode(m, EnvArgs(vars)).env| == |m.env| + |vars|
    ensures Decode(m, EnvArgs(vars)).env == m.env + vars <==> EnvNamesPlain(vars)
    decreases |vars|
  {
    if vars == [] {
      assert m.env + vars == m.env;
    } else {
      var init, last := vars[..|vars| - 1], vars[|vars| - 1];
      assert EnvArgs(vars)[..|vars| - 1] == EnvArgs(init) && vars == init + [last];
      DecodeEnv(m, init);
      var d := Decode(m, EnvArgs(init));
      EnvArgRecognised(d, last);
      ReadEnvExactly(last);
      var read := ReadEnv(last.name + EnvTail(last));
      GrownEqual(m.env, init, last, d.env, read);
      assert EnvNamesPlain(vars) <==> EnvNamesPlain(init) && NoEquals(last.name);
    }
  }

  lemma {:induction false} DecodeConfig(m: Meaning, vars: seq<HostConfigVar>)
    ensures Decode(m, ConfigArgs(vars)).(configVars := m.configVars) == m
    ensures |Decode(m, ConfigArgs(vars)).configVars| == |m.configVars| + |vars|
    ensures Decode(m, ConfigArgs(vars)).configVars == m.configVars + vars <==> ConfigNamesPlain(vars)
    decreases |vars|
  {
    if vars == [] {
      assert m.configVars + vars == m.configVars;
    } else {
      var init, last := vars[..|vars| - 1], vars[|vars| - 1];
      assert ConfigArgs(vars)[..|vars| - 1] == ConfigArgs(init) && vars == init + [last];
      DecodeConfig(m, init);
      var d := Decode(m, ConfigArgs(init));
      ConfigArgRecognised(d, last);
      ReadConfigExactly(last);
      var read := ReadConfig(last.name + ("=" + last.value));
      GrownEqual(m.configVars, init, last, d.configVars, read);
      assert ConfigNamesPlain(vars) <==> ConfigNamesPlain(init) && NoEquals(last.name);
    }
  }

  lemma DecodeFlags(m: Meaning, a: bool, b: bool)
    ensures Decode(m, Flag(a, INHERIT_ENV)) == if a then m.(inheritEnv := true) else m
    ensures Decode(m, [CONFIG]) == m.(config := true)
    ensures Decode(m, Flag(a, INHERIT_NETWORK) + Flag(b, IP_NAME_LOOKUP))
         == m.(inheritNetwork := m.inheritNetwork || a, ipNameLookup := m.ipNameLookup || b)
  {
    assert INHERIT_ENV[4] == 'h' && CONFIG[4] == 'n' && INHERIT_NETWORK[4] == 'h' && IP_NAME_LOOKUP[4] == 'l';
    assert |INHERIT_ENV| == 15 && |INHERIT_NETWORK| == 19;
    assert Decode(m, []) == m;
    forall x: Meaning, arg: string ensures Decode(x, [arg]) == DecodeOne(x, arg) {
      assert [arg][..0] == [];
    }
    DecodeAppend(m, Flag(a, INHERIT_NETWORK), Flag(b, IP_NAME_LOOKUP));
  }

  /** Reading the environment's part back. */
  lemma DecodeEnvPart(m: Meaning, c: HostEnv)
    requires m.env == [] && !m.inheritEnv
    ensures var d := Decode(m, AllEnvArgs(c));
            d.(env := []) == m.(inheritEnv := c.inherit) && (d.env == c.vars <==> EnvNamesPlain(c.vars))
  {
    DecodeAppend(m, Flag(c.inherit, INHERIT_ENV), EnvArgs(c.vars));
    DecodeFlags(m, c.inherit, false);
    DecodeEnv(Decode(m, Flag(c.inherit, INHERIT_ENV)), c.vars);
    assert [] + c.vars == c.vars;
  }

  lemma DecodeConfigPart(m: Meaning, c: HostConfig)
    requires m.configVars == []
    ensures var d := Decode(m, AllConfigArgs(c));
            d.(configVars := []) == m.(config := true) && (d.configVars == c.vars <==> ConfigNamesPlain(c.vars))
  {
    DecodeAppend(m, [CONFIG], ConfigArgs(c.vars));
    DecodeFlags(m, false, false);
    DecodeConfig(m.(config := true), c.vars);
    assert [] + c.vars == c.vars;
  }

  /**
   The rendered arguments can be read back, flags and variables in order, exactly when no
   variable name contains an equals sign.
   */
  lemma ArgsDecode(c: HostCapabilities)
    ensures Decode(NOTHING, Args(c)) == MeaningOf(c) <==> NamesPlain(c)
  {
    var first := if c.env.Some? then AllEnvArgs(c.env.value) else [];
    var second := if c.config.Some? then AllConfigArgs(c.config.value) else [];
    var third := if c.network.Some? then NetworkArgs(c.network.value) else [];
    DecodeAppend(NOTHING, first + second, third);
    DecodeAppend(NOTHING, first, second);
    var m1 := Decode(NOTHING, first);
    if c.env.Some? {
      DecodeEnvPart(NOTHING, c.env.value);
    }
    var m2 := Decode(m1, second);
    if c.config.Some? {
      DecodeConfigPart(m1, c.config.value);
    }
    if c.network.Some? {
      DecodeFlags(m2, c.network.value.inherit, c.network.value.ipNameLookup);
    }
  }

  /** With plain names, capabilities that render alike mean the same. */
  lemma RenderingIsInjective(a: HostCapabilities, b: HostCapabilities)
    requires NamesPlain(a) && NamesPlain(b) && Args(a) == Args(b)
    ensures MeaningOf(a) == MeaningOf(b)
  {
    ArgsDecode(a);
    ArgsDecode(b);
  }

  /** The same arguments with every name cut at its first equals sign. */
  function Resplit(c: HostCapabilities): HostCapabilities {
    c.(env := if c.env.None? then None else Some(c.env.value.(vars := ResplitEnv(c.env.value.vars))),
       config := if c.config.None? then None else Some(HostConfig(ResplitConfig(c.config.value.vars))))
  }

  function ResplitEnv(vars: seq<HostEnvVar>): seq<HostEnvVar> {
    seq(|vars|, i requires 0 <= i < |vars| => ReadEnv(vars[i].name + EnvTail(vars[i])))
  }

  function ResplitConfig(vars: seq<HostConfigVar>): seq<HostConfigVar> {
    seq(|vars|, i requires 0 <= i < |vars| => ReadConfig(vars[i].name + ("=" + vars[i].value)))
  }

  /** A string is put together again from what is before and after an equals sign. */
  lemma CutAt(rest: string, n: nat)
    requires n < |rest| && rest[n] == '='
    ensures rest == rest[..n] + ("=" + rest[n + 1..])
  {}

  /** Cutting a name differently does not change how a variable renders. */
  lemma ResplitEnvRest(rest: string)
    ensures var w := ReadEnv(rest); w.name + EnvTail(w) == rest && NoEquals(w.name)
  {
    var n := FirstEquals(rest);
    if n < |rest| {
      CutAt(rest, n);
    } else {
      assert rest[..n] == rest;
      assert rest + "" == rest;
    }
  }

  lemma ResplitEnvArg(v: HostEnvVar)
    ensures var w := ReadEnv(v.name + EnvTail(v)); EnvArg(w) == EnvArg(v) && NoEquals(w.name)
  {
    var w := ReadEnv(v.name + EnvTail(v));
    ResplitEnvRest(v.name + EnvTail(v));
    Regroup(ENV, v.name, EnvTail(v));
    Regroup(ENV, w.name, EnvTail(w));
  }

  lemma EqualsInside(name: string, value: string)
    ensures FirstEquals(name + ("=" + value)) < |name + ("=" + value)|
  {
    var rest := name + ("=" + value);
    var n := FirstEquals(rest);
    assert rest[|name|] == '=';
    assert forall k :: 0 <= k < n ==> rest[..n][k] == rest[k];
  }

  lemma ResplitConfigArg(v: HostConfigVar)
    ensures var w := ReadConfig(v.name + ("=" + v.value)); ConfigArg(w) == ConfigArg(v) && NoEquals(w.name)
  {
    var rest := v.name + ("=" + v.value);
    var w := ReadConfig(rest);
    EqualsInside(v.name, v.value);
    CutAtEquals(rest);
    Regroup(CONFIG_VAR, v.name, "=" + v.value);
    Regroup(CONFIG_VAR, w.name, "=" + w.value);
  }

  lemma CutAtEquals(rest: string)
    requires FirstEquals(rest) < |rest|
    ensures var w := ReadConfig(rest); w.name + ("=" + w.value) == rest && NoEquals(w.name)
  {
    CutAt(rest, FirstEquals(rest));
  }

  /**
   Every capability set renders like one with plain names, so names with an equals sign
   always clash: the two sets mean the same only if the names were plain.
   */
  lemma EqualsInNameClashes(c: HostCapabilities)
    ensures NamesPlain(Resplit(c)) && Args(Resplit(c)) == Args(c)
    ensures MeaningOf(Resplit(c)) == MeaningOf(c) <==> NamesPlain(c)
  {
    var d := Resplit(c);
    if c.env.Some? {
      var vars := c.env.value.vars;
      forall i | 0 <= i < |vars| ensures EnvArg(ResplitEnv(vars)[i]) == EnvArg(vars[i]) && NoEquals(ResplitEnv(vars)[i].name) {
        ResplitEnvArg(vars[i]);
      }
      assert EnvArgs(ResplitEnv(vars)) == EnvArgs(vars);
    }
    if c.config.Some? {
      var vars := c.config.value.vars;
      forall i | 0 <= i < |vars| ensures ConfigArg(ResplitConfig(vars)[i]) == ConfigArg(vars[i]) && NoEquals(ResplitConfig(vars)[i].name) {
        ResplitConfigArg(vars[i]);
      }
      assert ConfigArgs(ResplitConfig(vars)) == ConfigArgs(vars);
    }
    assert NamesPlain(d) && Args(d) == Args(c);
    ArgsDecode(c);
    ArgsDecode(d);
  }
}
