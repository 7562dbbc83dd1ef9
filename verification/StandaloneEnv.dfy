/** The three layers of a standalone environment: the inherited entries, then the `.env` file,
    then the settings standalone mode depends on. */
module StandaloneEnv {
  import opened Strings

  const DEFAULT_PORT := "8080"
  const PROXY_KEYS := {"HTTP_PROXY", "http_proxy", "HTTPS_PROXY", "https_proxy", "ALL_PROXY", "all_proxy", "NO_PROXY",
      "no_proxy"}

  /** What the process sees of its host: the two variables it extends, the operating system,
      and whether a proxy is set outside the overrides. */
  datatype Host = Host(path: string, pythonPath: string, isDarwin: bool, proxyOutside: bool, environ: seq<string>)

  datatype Entry = Entry(key: string, value: string)

  /** `key=value`, split at the first `=`; None without one. */
  function Split(kv: string): (e: Option<Entry>)
    ensures e.Some? ==> '=' !in e.value.key
  {
    if kv == "" then None
    else if kv[0] == '=' then Some(Entry("", kv[1..]))
    else
      var rest :- Split(kv[1..]);
      Some(Entry([kv[0]] + rest.key, rest.value))
  }

  lemma {:induction false} SplitOf(key: string, value: string)
    requires '=' !in key
    ensures Split(key + ("=" + value)) == Some(Entry(key, value))
  {
    var kv := key + ("=" + value);
    if key != "" {
      assert kv[1..] == key[1..] + ("=" + value) && kv[0] == key[0];
      SplitOf(key[1..], value);
      assert key == [key[0]] + key[1..];
    } else {
      assert kv == "=" + value && kv[1..] == value;
    }
  }

  /** What is split is an entry of its parts, and only a text without `=` is not split. */
  lemma {:induction false} SplitMeans(kv: string)
    ensures Split(kv).None? <==> '=' !in kv
    ensures Split(kv).Some? ==> kv == Split(kv).value.key + ("=" + Split(kv).value.value)
  {
    if kv == "" || kv[0] == '=' {
      assert kv != "" ==> kv == "" + ("=" + kv[1..]);
    } else {
      SplitMeans(kv[1..]);
      assert kv == [kv[0]] + kv[1..];
      if Split(kv[1..]).Some? {
        var rest := Split(kv[1..]).value;
        Associate([kv[0]], rest.key, "=" + rest.value);
      }
    }
  }

  function Join(key: string, value: string): string { key + ("=" + value) }

  // ---------- the layers ----------

  /** The value the last line for `key` gives. */
  function LastValue(lines: seq<string>, key: string): Option<string> {
    if lines == [] then None
    else
      var e := Split(lines[|lines| - 1]);
      if e.Some? && e.value.key == key then Some(e.value.value) else LastValue(lines[..|lines| - 1], key)
  }

  /** The lines as a map, and nothing else. */
  ghost predicate IsDotEnv(lines: seq<string>, m: map<string, string>) {
    forall key :: (if key in m then Some(m[key]) else None) == LastValue(lines, key)
  }

  function AirflowKey(section: string, name: string): string { "AIRFLOW__" + section + "__" + name }

  function CommonSettings(home: string, host: Host): map<string, string> {
    map[
      "PATH" := home + "/.venv/bin:" + host.path,
      "PYTHONPATH" := if host.pythonPath != "" then home + ":" + host.pythonPath else home,
      "AIRFLOW_HOME" := home + "/.astro/standalone",
      "ASTRONOMER_ENVIRONMENT" := "local",
      AirflowKey("CORE", "LOAD_EXAMPLES") := "False",
      AirflowKey("CORE", "DAGS_FOLDER") := home + "/dags",
      AirflowKey("CORE", "FERNET_KEY") := "d6Vefz3G9U_ynXB3cr7y_Ak35tAHkEGAVxuz_B-jzWw="
    ]
  }

  function Airflow3Settings(port: string, signingSecret: string): map<string, string> {
    (if port != DEFAULT_PORT then map[AirflowKey("API", "PORT") := port] else map[])
    + map[
      AirflowKey("CORE", "SIMPLE_AUTH_MANAGER_ALL_ADMINS") := "True",
      AirflowKey("CORE", "EXECUTION_API_SERVER_URL") := "http://localhost:" + port + "/execution/",
      AirflowKey("API", "SECRET_KEY") := signingSecret,
      AirflowKey("API_AUTH", "JWT_SECRET") := signingSecret
    ]
  }

  function Airflow2Settings(home: string, port: string, signingSecret: string, isDarwin: bool): map<string, string> {
    (if port != DEFAULT_PORT then map[AirflowKey("WEBSERVER", "WEB_SERVER_PORT") := port] else map[])
    + (if !isDarwin then map[AirflowKey("WEBSERVER", "WORKERS") := "1"] else map[])
    + Airflow2Fixed(home, signingSecret)
  }

  function Airflow2Fixed(home: string, signingSecret: string): map<string, string> {
    map[
      AirflowKey("CORE", "PLUGINS_FOLDER") := home + "/plugins",
      AirflowKey("CORE", "EXECUTOR") := "LocalExecutor",
      "_AIRFLOW__SKIP_DATABASE_EXECUTOR" + "_COMPATIBILITY_CHECK" := "1",
      AirflowKey("CORE", "EXECUTE_TASKS_NEW_PYTHON_INTERPRETER") := "True",
      AirflowKey("API", "AUTH_BACKEND") := "airflow.api.auth.backend.basic_auth",
      AirflowKey("WEBSERVER", "SECRET_KEY") := signingSecret,
      AirflowKey("WEBSERVER", "EXPOSE_CONFIG") := "True"
    ]
  }

  /** The settings that must win over everything else. */
  function Settings(home: string, major: string, port: string, signingSecret: string, host: Host): map<string, string> {
    CommonSettings(home, host)
    + (if major == "3" then Airflow3Settings(port, signingSecret)
        else Airflow2Settings(home, port, signingSecret, host.isDarwin))
  }

  predicate HasProxyConfigured(overrides: map<string, string>, host: Host) {
    overrides.Keys * PROXY_KEYS != {} || host.proxyOutside
  }

  /** The proxy workaround, on top of the other overrides. */
  function NoProxy(overrides: map<string, string>, host: Host): map<string, string> {
    if HasProxyConfigured(overrides, host) then map[] else map["NO_PROXY" := "*", "no_proxy" := "*"]
  }

  // ---------- merging ----------

  predicate IsOverridden(kv: string, overrides: map<string, string>) {
    Split(kv).Some? && Split(kv).value.key in overrides
  }

  /** The inherited entries whose key is not overridden, in their order. */
  function Untouched(environ: seq<string>, overrides: map<string, string>): seq<string> {
    if environ == [] then []
    else (if IsOverridden(environ[0], overrides) then [] else [environ[0]]) + Untouched(environ[1..], overrides)
  }

  function Entries(overrides: map<string, string>, keys: seq<string>): seq<string>
    requires forall k :: k in keys ==> k in overrides
  {
    if keys == [] then [] else [Join(keys[0], overrides[keys[0]])] + Entries(overrides, keys[1..])
  }

  predicate Distinct(keys: seq<string>) { forall i, j :: 0 <= i < j < |keys| ==> keys[i] != keys[j] }

  /** The untouched entries, then every override once, in some order. */
  ghost predicate IsMerged(env: seq<string>, environ: seq<string>, overrides: map<string, string>) {
    exists keys: seq<string> ::
      && Distinct(keys) && (forall k :: k in keys <==> k in overrides)
      && env == Untouched(environ, overrides) + Entries(overrides, keys)
  }

  method LoadDotEnv(lines: seq<string>) returns (overrides: map<string, string>)
    ensures IsDotEnv(lines, overrides)
    ensures forall k :: k in overrides ==> '=' !in k
  {
    overrides := map[];
    for i := 0 to |lines|
      invariant IsDotEnv(lines[..i], overrides)
      invariant forall k :: k in overrides ==> '=' !in k
    {
      var e := Split(lines[i]);
      assert lines[..i + 1][..i] == lines[..i];
      if e.Some? {
        overrides := overrides[e.value.key := e.value.value];
      }
    }
    assert lines[..|lines|] == lines;
  }

  lemma UntouchedCons(kv: string, rest: seq<string>, overrides: map<string, string>)
    ensures Untouched([kv] + rest, overrides) ==
            (if IsOverridden(kv, overrides) then [] else [kv]) + Untouched(rest, overrides)
  {
    hide IsOverridden;
    assert ([kv] + rest)[1..] == rest;
  }

  lemma {:induction false} UntouchedSnoc(environ: seq<string>, kv: string, overrides: map<string, string>)
    ensures Untouched(environ + [kv], overrides) == Untouched(environ, overrides) + Untouched([kv], overrides)
  {
    if environ == [] {
      assert environ + [kv] == [kv];
    } else {
      hide Untouched, IsOverridden;
      var first, rest := environ[0], environ[1..];
      UntouchedSnoc(rest, kv, overrides);
      UntouchedCons(first, rest, overrides);
      UntouchedCons(first, rest + [kv], overrides);
      assert environ == [first] + rest;
      Associate([first], rest, [kv]);
      var kept := if IsOverridden(first, overrides) then [] else [first];
      Associate(kept, Untouched(rest, overrides), Untouched([kv], overrides));
    }
  }

  lemma {:induction false} EntriesSnoc(overrides: map<string, string>, keys: seq<string>, k: string)
    requires forall j :: j in keys ==> j in overrides
    requires k in overrides
    ensures Entries(overrides, keys + [k]) == Entries(overrides, keys) + [Join(k, overrides[k])]
  {
    if keys == [] {
      assert keys + [k] == [k];
    } else {
      EntriesSnoc(overrides, keys[1..], k);
      assert (keys + [k])[1..] == keys[1..] + [k];
    }
  }

  method Merge(environ: seq<string>, overrides: map<string, string>) returns (env: seq<string>)
    ensures IsMerged(env, environ, overrides)
  {
    env := [];
    for i := 0 to |environ|
      invariant env == Untouched(environ[..i], overrides)
    {
      var e := Split(environ[i]);
      UntouchedSnoc(environ[..i], environ[i], overrides);
      assert environ[..i + 1] == environ[..i] + [environ[i]];
      if !(e.Some? && e.value.key in overrides) {
        env := env + [environ[i]];
      }
    }
    assert environ[..|environ|] == environ;
    var todo := overrides.Keys;
    ghost var keys: seq<string> := [];
    while todo != {}
      invariant todo <= overrides.Keys && Distinct(keys)
      invariant forall k :: k in keys <==> k in overrides && k !in todo
      invariant env == Untouched(environ, overrides) + Entries(overrides, keys)
      decreases todo
    {
      var k :| k in todo;
      todo := todo - {k};
      EntriesSnoc(overrides, keys, k);
      env := env + [Join(k, overrides[k])];
      keys := keys + [k];
    }
  }

  // ---------- what the merged environment gives each key ----------

  predicate IsFor(kv: string, key: string) { Split(kv).Some? && Split(kv).value.key == key }

  /** Every entry of `env` for `key`, in order. */
  function EntriesFor(env: seq<string>, key: string): seq<string> {
    if env == [] then []
    else (if IsFor(env[0], key) then [env[0]] else []) + EntriesFor(env[1..], key)
  }

  lemma EntriesForCons(kv: string, rest: seq<string>, key: string)
    ensures EntriesFor([kv] + rest, key) == (if IsFor(kv, key) then [kv] else []) + EntriesFor(rest, key)
  {
    hide IsFor;
    assert ([kv] + rest)[1..] == rest;
  }

  lemma {:induction false} EntriesForConcat(a: seq<string>, b: seq<string>, key: string)
    ensures EntriesFor(a + b, key) == EntriesFor(a, key) + EntriesFor(b, key)
  {
    if a == [] {
      assert a + b == b;
    } else {
      hide EntriesFor, IsFor;
      var kv, rest := a[0], a[1..];
      EntriesForConcat(rest, b, key);
      EntriesForCons(kv, rest, key);
      EntriesForCons(kv, rest + b, key);
      assert a == [kv] + rest;
      Associate([kv], rest, b);
      Associate(if IsFor(kv, key) then [kv] else [], EntriesFor(rest, key), EntriesFor(b, key));
    }
  }

  lemma EntriesForOne(kv: string, key: string)
    ensures EntriesFor([kv], key) == if IsFor(kv, key) then [kv] else []
  {
    assert [kv][1..] == [];
  }

  lemma {:induction false} UntouchedFor(environ: seq<string>, overrides: map<string, string>, key: string)
    ensures EntriesFor(Untouched(environ, overrides), key) == if key in overrides then [] else EntriesFor(environ, key)
  {
    if environ == [] {
    } else {
      var rest := Untouched(environ[1..], overrides);
      UntouchedFor(environ[1..], overrides, key);
      EntriesForConcat([environ[0]], rest, key);
      EntriesForConcat([], rest, key);
      EntriesForOne(environ[0], key);
      assert Untouched(environ, overrides) == (if IsOverridden(environ[0], overrides) then [] else [environ[0]]) + rest;
      assert [] + EntriesFor(rest, key) == EntriesFor(rest, key)
          && [] + EntriesFor(environ[1..], key) == EntriesFor(environ[1..], key);
    }
  }

  lemma {:induction false} OverriddenFor(overrides: map<string, string>, keys: seq<string>, key: string)
    requires forall k :: k in keys ==> k in overrides && '=' !in k
    requires Distinct(keys)
    ensures EntriesFor(Entries(overrides, keys), key) == if key in keys then [Join(key, overrides[key])] else []
  {
    if keys == [] {
    } else {
      OverriddenFor(overrides, keys[1..], key);
      SplitOf(keys[0], overrides[keys[0]]);
      assert keys == [keys[0]] + keys[1..];
    }
  }

  /** A merged environment gives an overridden key its override, exactly once, and any other
      key its inherited entries, in their order. */
  lemma MergedGivesEachKey(env: seq<string>, environ: seq<string>, overrides: map<string, string>, key: string)
    requires IsMerged(env, environ, overrides) && forall k :: k in overrides ==> '=' !in k
    ensures EntriesFor(env, key) == if key in overrides then [Join(key, overrides[key])] else EntriesFor(environ, key)
  {
    var keys: seq<string> :|
      Distinct(keys) && (forall k :: k in keys <==> k in overrides)
      && env == Untouched(environ, overrides) + Entries(overrides, keys);
    EntriesForConcat(Untouched(environ, overrides), Entries(overrides, keys), key);
    UntouchedFor(environ, overrides, key);
    OverriddenFor(overrides, keys, key);
  }

  lemma AirflowKeyIsPlain(section: string, name: string)
    requires '=' !in section && '=' !in name
    ensures '=' !in AirflowKey(section, name)
  {
    assert '=' !in "AIRFLOW__" && '=' !in "__";
  }

  predicate Plain(m: map<string, string>) { forall k :: k in m ==> '=' !in k }

  lemma CommonSettingsArePlain(home: string, host: Host)
    ensures Plain(CommonSettings(home, host))
  {
    assert '=' !in "PATH" && '=' !in "PYTHONPATH" && '=' !in "AIRFLOW_HOME" && '=' !in "ASTRONOMER_ENVIRONMENT";
    assert '=' !in "CORE";
    assert '=' !in "LOAD_EXAMPLES" && '=' !in "DAGS_FOLDER" && '=' !in "FERNET_KEY";
    AirflowKeyIsPlain("CORE", "LOAD_EXAMPLES");
    AirflowKeyIsPlain("CORE", "DAGS_FOLDER");
    AirflowKeyIsPlain("CORE", "FERNET_KEY");
  }

  lemma Airflow3SettingsArePlain(port: string, signingSecret: string)
    ensures Plain(Airflow3Settings(port, signingSecret))
  {
    hide AirflowKey;
    assert '=' !in "API" && '=' !in "CORE" && '=' !in "API_AUTH";
    assert '=' !in "PORT" && '=' !in "SECRET_KEY" && '=' !in "JWT_SECRET";
    assert '=' !in "SIMPLE_AUTH_MANAGER_ALL_ADMINS";
    assert '=' !in "EXECUTION_API_SERVER_URL";
    AirflowKeyIsPlain("API", "PORT");
    AirflowKeyIsPlain("CORE", "SIMPLE_AUTH_MANAGER_ALL_ADMINS");
    AirflowKeyIsPlain("CORE", "EXECUTION_API_SERVER_URL");
    AirflowKeyIsPlain("API", "SECRET_KEY");
    AirflowKeyIsPlain("API_AUTH", "JWT_SECRET");
  }

  lemma LongKeysArePlain()
    ensures '=' !in "EXECUTE_TASKS_NEW_PYTHON_INTERPRETER"
    ensures '=' !in "_AIRFLOW__SKIP_DATABASE_EXECUTOR" + "_COMPATIBILITY_CHECK"
  {
    assert '=' !in "_AIRFLOW__SKIP_DATABASE_EXECUTOR";
    assert '=' !in "_COMPATIBILITY_CHECK";
  }

  lemma Airflow2SettingsArePlain(home: string, port: string, signingSecret: string, isDarwin: bool)
    ensures Plain(Airflow2Settings(home, port, signingSecret, isDarwin))
  {
    hide AirflowKey;
    LongKeysArePlain();
    assert '=' !in "WEBSERVER" && '=' !in "CORE" && '=' !in "API";
    assert '=' !in "WEB_SERVER_PORT" && '=' !in "WORKERS" && '=' !in "PLUGINS_FOLDER" && '=' !in "EXECUTOR";
    assert '=' !in "AUTH_BACKEND" && '=' !in "SECRET_KEY" && '=' !in "EXPOSE_CONFIG";
    AirflowKeyIsPlain("WEBSERVER", "WEB_SERVER_PORT");
    AirflowKeyIsPlain("WEBSERVER", "WORKERS");
    AirflowKeyIsPlain("CORE", "PLUGINS_FOLDER");
    AirflowKeyIsPlain("CORE", "EXECUTOR");
    AirflowKeyIsPlain("CORE", "EXECUTE_TASKS_NEW_PYTHON_INTERPRETER");
    AirflowKeyIsPlain("API", "AUTH_BACKEND");
    AirflowKeyIsPlain("WEBSERVER", "SECRET_KEY");
    AirflowKeyIsPlain("WEBSERVER", "EXPOSE_CONFIG");
  }

  /** Which layer a key is taken from: the standalone settings, then the last `.env` line,
      then what was inherited. */
  ghost function Layered(settings: map<string, string>, lines: seq<string>, environ: seq<string>,
      key: string): seq<string> {
    if key in settings then [Join(key, settings[key])]
    else if LastValue(lines, key).Some? then [Join(key, LastValue(lines, key).value)]
    else EntriesFor(environ, key)
  }

  lemma SettingsArePlain(home: string, major: string, port: string, signingSecret: string, host: Host)
    ensures Plain(Settings(home, major, port, signingSecret, host))
  {
    hide CommonSettings, Airflow3Settings, Airflow2Settings;
    CommonSettingsArePlain(home, host);
    Airflow3SettingsArePlain(port, signingSecret);
    Airflow2SettingsArePlain(home, port, signingSecret, host.isDarwin);
  }

  lemma NoProxyIsPlain(overrides: map<string, string>, host: Host)
    ensures Plain(NoProxy(overrides, host))
    ensures NoProxy(overrides, host).Keys <= {"NO_PROXY", "no_proxy"}
  {
    assert '=' !in "NO_PROXY" && '=' !in "no_proxy";
  }

  /** The merged environment takes each key from the highest layer that has it. */
  lemma LayerOfKey(env: seq<string>, environ: seq<string>, dotenv: map<string, string>, top: map<string, string>,
                   lines: seq<string>, key: string)
    requires IsDotEnv(lines, dotenv) && Plain(dotenv) && Plain(top) && IsMerged(env, environ, dotenv + top)
    ensures EntriesFor(env, key) == Layered(top, lines, environ, key)
  {
    hide EntriesFor, IsMerged, LastValue;
    MergedGivesEachKey(env, environ, dotenv + top, key);
    assert (if key in dotenv then Some(dotenv[key]) else None) == LastValue(lines, key);
  }

  /** Some proxy variable is set in the `.env` file, or one is outside. */
  ghost predicate ProxyIsSet(lines: seq<string>, host: Host) {
    || host.proxyOutside
    || LastValue(lines, "HTTP_PROXY").Some? || LastValue(lines, "http_proxy").Some?
    || LastValue(lines, "HTTPS_PROXY").Some? || LastValue(lines, "https_proxy").Some?
    || LastValue(lines, "ALL_PROXY").Some? || LastValue(lines, "all_proxy").Some?
    || LastValue(lines, "NO_PROXY").Some? || LastValue(lines, "no_proxy").Some?
  }

  /** The proxy workaround is in the environment, under both names, exactly when no proxy is set
      in the `.env` file or outside; and no other setting is a proxy. */
  lemma NoProxyExactly(env: seq<string>, dotenv: map<string, string>, lines: seq<string>, critical: map<string, string>,
                       host: Host, key: string)
    requires IsDotEnv(lines, dotenv) && Plain(dotenv) && Plain(critical) && critical.Keys !! PROXY_KEYS
    requires IsMerged(env, host.environ, dotenv + critical + NoProxy(dotenv + critical, host))
    requires key == "NO_PROXY" || key == "no_proxy"
    ensures EntriesFor(env, key) == if !ProxyIsSet(lines, host) then [key + "=*"]
                                    else if LastValue(lines, key).Some? then [Join(key, LastValue(lines, key).value)]
                                    else EntriesFor(host.environ, key)
  {
    hide EntriesFor, IsMerged, LastValue, Plain;
    var overrides := dotenv + critical;
    NoProxyIsPlain(overrides, host);
    PlainSum(dotenv, critical, NoProxy(overrides, host));
    MergedGivesEachKey(env, host.environ, overrides + NoProxy(overrides, host), key);
    assert key in PROXY_KEYS;
    forall k ensures k in dotenv <==> LastValue(lines, k).Some? {
      assert (if k in dotenv then Some(dotenv[k]) else None) == LastValue(lines, k);
    }
    assert key in dotenv ==> Some(dotenv[key]) == LastValue(lines, key);
    assert overrides.Keys * PROXY_KEYS == dotenv.Keys * PROXY_KEYS;
    if k :| k in PROXY_KEYS && k in dotenv { assert k in overrides.Keys * PROXY_KEYS; }
    if k :| k in overrides.Keys * PROXY_KEYS { assert k in dotenv; }
    assert "=" + "*" == "=*";
  }

  lemma CommonAreNoProxies(home: string, host: Host, k: string)
    requires k in CommonSettings(home, host)
    ensures k !in PROXY_KEYS
  {
    assert k == "" || k[0] == 'P' || |k| > 11;
  }

  lemma AirflowKeyIsNoProxy(section: string, name: string)
    requires section != ""
    ensures AirflowKey(section, name) !in PROXY_KEYS
  {
    assert |AirflowKey(section, name)| > 11;
  }

  lemma Airflow3AreNoProxies(port: string, signingSecret: string, k: string)
    requires k in Airflow3Settings(port, signingSecret)
    ensures k !in PROXY_KEYS
  {
    hide AirflowKey;
    AirflowKeyIsNoProxy("API", "PORT");
    AirflowKeyIsNoProxy("CORE", "SIMPLE_AUTH_MANAGER_ALL_ADMINS");
    AirflowKeyIsNoProxy("CORE", "EXECUTION_API_SERVER_URL");
    AirflowKeyIsNoProxy("API", "SECRET_KEY");
    AirflowKeyIsNoProxy("API_AUTH", "JWT_SECRET");
  }

  lemma Airflow2AreNoProxies(home: string, port: string, signingSecret: string, isDarwin: bool, k: string)
    requires k in Airflow2Settings(home, port, signingSecret, isDarwin)
    ensures k !in PROXY_KEYS
  {
    hide AirflowKey;
    assert |"_AIRFLOW__SKIP_DATABASE_EXECUTOR" + "_COMPATIBILITY_CHECK"| > 11;
    AirflowKeyIsNoProxy("WEBSERVER", "WEB_SERVER_PORT");
    AirflowKeyIsNoProxy("WEBSERVER", "WORKERS");
    AirflowKeyIsNoProxy("CORE", "PLUGINS_FOLDER");
    AirflowKeyIsNoProxy("CORE", "EXECUTOR");
    AirflowKeyIsNoProxy("CORE", "EXECUTE_TASKS_NEW_PYTHON_INTERPRETER");
    AirflowKeyIsNoProxy("API", "AUTH_BACKEND");
    AirflowKeyIsNoProxy("WEBSERVER", "SECRET_KEY");
    AirflowKeyIsNoProxy("WEBSERVER", "EXPOSE_CONFIG");
  }

  lemma SettingsAreNoProxies(home: string, major: string, port: string, signingSecret: string, host: Host)
    ensures Settings(home, major, port, signingSecret, host).Keys !! PROXY_KEYS
  {
    hide CommonSettings, Airflow3Settings, Airflow2Settings;
    forall k | k in Settings(home, major, port, signingSecret, host) ensures k !in PROXY_KEYS {
      if k in CommonSettings(home, host) {
        CommonAreNoProxies(home, host, k);
      } else if k in Airflow3Settings(port, signingSecret) {
        Airflow3AreNoProxies(port, signingSecret, k);
      } else {
        Airflow2AreNoProxies(home, port, signingSecret, host.isDarwin, k);
      }
    }
  }

  /** The port is given to the server of the running major version exactly when it is not the
      default one, and gunicorn is limited to one worker exactly on Airflow 2 off macOS. */
  lemma PortIsSetExactly(home: string, major: string, port: string, signingSecret: string, host: Host)
    ensures var settings := Settings(home, major, port, signingSecret, host);
            var portKey := if major == "3" then AirflowKey("API", "PORT")
                           else AirflowKey("WEBSERVER", "WEB_SERVER_PORT");
            && (portKey in settings <==> port != "8080") && (portKey in settings ==> settings[portKey] == port)
            && (AirflowKey("WEBSERVER", "WORKERS") in settings <==> major != "3" && !host.isDarwin)
  {
    hide Settings, CommonSettings, Airflow3Settings, Airflow2Settings;
    PortsOfCommon(home, host);
    PortsOf3(port, signingSecret);
    PortsOf2(home, port, signingSecret, host.isDarwin);
    SettingsSplit(home, major, port, signingSecret, host);
  }

  lemma SettingsSplit(home: string, major: string, port: string, signingSecret: string, host: Host)
    ensures Settings(home, major, port, signingSecret, host) ==
            CommonSettings(home, host) + (if major == "3" then Airflow3Settings(port, signingSecret)
                                          else Airflow2Settings(home, port, signingSecret, host.isDarwin))
  {}

  lemma KeyLength(section: string, name: string)
    ensures |AirflowKey(section, name)| == 11 + |section| + |name|
  {}

  lemma CommonLengths(home: string, host: Host, k: string)
    requires k in CommonSettings(home, host)
    ensures |k| in {4, 10, 12, 22, 25, 26, 28}
  {}

  lemma PortsOfCommon(home: string, host: Host)
    ensures AirflowKey("API", "PORT") !in CommonSettings(home, host)
    ensures AirflowKey("WEBSERVER", "WEB_SERVER_PORT") !in CommonSettings(home, host)
    ensures AirflowKey("WEBSERVER", "WORKERS") !in CommonSettings(home, host)
  {
    hide AirflowKey, CommonSettings;
    KeyLength("API", "PORT");
    KeyLength("WEBSERVER", "WEB_SERVER_PORT");
    KeyLength("WEBSERVER", "WORKERS");
    forall k | k in CommonSettings(home, host) ensures |k| in {4, 10, 12, 22, 25, 26, 28} {
      CommonLengths(home, host, k);
    }
  }

  lemma PortsOf3(port: string, signingSecret: string)
    ensures var settings := Airflow3Settings(port, signingSecret);
            && (AirflowKey("API", "PORT") in settings <==> port != "8080")
            && (port != "8080" ==> settings[AirflowKey("API", "PORT")] == port)
            && AirflowKey("WEBSERVER", "WORKERS") !in settings
  {
    hide AirflowKey;
    KeyLength("API", "PORT");
    KeyLength("WEBSERVER", "WORKERS");
    KeyLength("CORE", "SIMPLE_AUTH_MANAGER_ALL_ADMINS");
    KeyLength("CORE", "EXECUTION_API_SERVER_URL");
    KeyLength("API", "SECRET_KEY");
    KeyLength("API_AUTH", "JWT_SECRET");
  }

  lemma Airflow2Lengths(home: string, signingSecret: string, k: string)
    requires k in Airflow2Fixed(home, signingSecret)
    ensures |k| in {29, 23, 26, 30, 33} || |k| > 35
  {}

  lemma PortsOf2(home: string, port: string, signingSecret: string, isDarwin: bool)
    ensures var settings := Airflow2Settings(home, port, signingSecret, isDarwin);
            && (AirflowKey("WEBSERVER", "WEB_SERVER_PORT") in settings <==> port != "8080")
            && (port != "8080" ==> settings[AirflowKey("WEBSERVER", "WEB_SERVER_PORT")] == port)
            && (AirflowKey("WEBSERVER", "WORKERS") in settings <==> !isDarwin)
  {
    hide AirflowKey, Airflow2Fixed;
    KeyLength("WEBSERVER", "WEB_SERVER_PORT");
    KeyLength("WEBSERVER", "WORKERS");
    forall k | k in Airflow2Fixed(home, signingSecret) ensures |k| in {29, 23, 26, 30, 33} || |k| > 35 {
      Airflow2Lengths(home, signingSecret, k);
    }
  }

  lemma PlainSum(a: map<string, string>, b: map<string, string>, c: map<string, string>)
    requires Plain(a) && Plain(b) && Plain(c)
    ensures Plain(a + b + c)
  {}

  lemma TopLayer(top: map<string, string>, lines: seq<string>, environ: seq<string>, key: string)
    requires key in top
    ensures Layered(top, lines, environ, key) == [Join(key, top[key])]
  {}

  /** The keys Airflow signs its sessions and API tokens with. */
  function SigningKeys(major: string): seq<string> {
    if major == "3" then [AirflowKey("API", "SECRET_KEY"), AirflowKey("API_AUTH", "JWT_SECRET")]
    else [AirflowKey("WEBSERVER", "SECRET_KEY")]
  }

  /** Airflow 3 signs with two keys, Airflow 2 with one. */
  lemma SigningKeysAre(major: string)
    ensures SigningKeys("3") == ["AIRFLOW__API__SECRET_KEY", "AIRFLOW__API_AUTH__JWT_SECRET"]
    ensures major != "3" ==> SigningKeys(major) == ["AIRFLOW__WEBSERVER__SECRET_KEY"]
  {
    assert AirflowKey("API", "SECRET_KEY") == "AIRFLOW__API__SECRET_KEY";
    assert AirflowKey("API_AUTH", "JWT_SECRET") == "AIRFLOW__API_AUTH__JWT_SECRET";
    assert AirflowKey("WEBSERVER", "SECRET_KEY") == "AIRFLOW__WEBSERVER__SECRET_KEY";
  }

  lemma CommonPaths(home: string, host: Host)
    ensures var settings := CommonSettings(home, host);
            && "PATH" in settings && settings["PATH"] == home + "/.venv/bin:" + host.path
            && "AIRFLOW_HOME" in settings && settings["AIRFLOW_HOME"] == home + "/.astro/standalone"
  {
    hide AirflowKey;
    KeyLength("CORE", "LOAD_EXAMPLES");
    KeyLength("CORE", "DAGS_FOLDER");
    KeyLength("CORE", "FERNET_KEY");
  }

  lemma CommonPythonPath(home: string, host: Host)
    ensures var settings := CommonSettings(home, host);
            "PYTHONPATH" in settings
            && settings["PYTHONPATH"] == if host.pythonPath == "" then home else home + ":" + host.pythonPath
  {
    hide AirflowKey;
    KeyLength("CORE", "LOAD_EXAMPLES");
    KeyLength("CORE", "DAGS_FOLDER");
    KeyLength("CORE", "FERNET_KEY");
  }

  lemma CommonDags(home: string, host: Host)
    ensures var settings := CommonSettings(home, host);
            && AirflowKey("CORE", "LOAD_EXAMPLES") in settings
            && settings[AirflowKey("CORE", "LOAD_EXAMPLES")] == "False"
            && AirflowKey("CORE", "DAGS_FOLDER") in settings
            && settings[AirflowKey("CORE", "DAGS_FOLDER")] == home + "/dags"
  {
    hide AirflowKey;
    KeyLength("CORE", "LOAD_EXAMPLES");
    KeyLength("CORE", "DAGS_FOLDER");
    KeyLength("CORE", "FERNET_KEY");
  }

  lemma Airflow3Lengths(port: string, signingSecret: string, k: string)
    requires k in Airflow3Settings(port, signingSecret)
    ensures |k| in {18, 24, 29} || |k| > 30
  {}

  lemma MajorLeavesCommon(home: string, major: string, port: string, signingSecret: string, host: Host, k: string)
    requires k in CommonSettings(home, host)
    ensures if major == "3" then k !in Airflow3Settings(port, signingSecret)
            else k !in Airflow2Settings(home, port, signingSecret, host.isDarwin)
  {
    hide CommonSettings, Airflow3Settings, Airflow2Fixed, AirflowKey;
    CommonLengths(home, host, k);
    KeyLength("WEBSERVER", "WEB_SERVER_PORT");
    KeyLength("WEBSERVER", "WORKERS");
    if major == "3" {
      if k in Airflow3Settings(port, signingSecret) { Airflow3Lengths(port, signingSecret, k); }
    } else if k in Airflow2Fixed(home, signingSecret) {
      Airflow2Lengths(home, signingSecret, k);
      DagsFolderOnly(home, host, k);
      AuthBackendOnly(home, signingSecret, k);
    }
  }

  lemma DagsFolderOnly(home: string, host: Host, k: string)
    requires k in CommonSettings(home, host)
    ensures |k| == 26 ==> k[9] == 'C'
  {}

  lemma AuthBackendOnly(home: string, signingSecret: string, k: string)
    requires k in Airflow2Fixed(home, signingSecret)
    ensures |k| == 26 ==> k[9] == 'A'
  {}

  /** The settings the process finds its programs, modules, home and DAGs by, for either major
      version: the project's programs come first on the path, and an unset module path leaves no
      empty element. */
  lemma CriticalSettingsHold(home: string, major: string, port: string, signingSecret: string, host: Host)
    ensures var settings := Settings(home, major, port, signingSecret, host);
            && "PATH" in settings && settings["PATH"] == home + "/.venv/bin:" + host.path
            && "PYTHONPATH" in settings
            && settings["PYTHONPATH"] == (if host.pythonPath == "" then home else home + ":" + host.pythonPath)
            && "AIRFLOW_HOME" in settings && settings["AIRFLOW_HOME"] == home + "/.astro/standalone"
            && AirflowKey("CORE", "LOAD_EXAMPLES") in settings
            && settings[AirflowKey("CORE", "LOAD_EXAMPLES")] == "False"
            && AirflowKey("CORE", "DAGS_FOLDER") in settings
            && settings[AirflowKey("CORE", "DAGS_FOLDER")] == home + "/dags"
  {
    hide Settings, CommonSettings, Airflow3Settings, Airflow2Settings, AirflowKey;
    CommonPaths(home, host);
    CommonPythonPath(home, host);
    CommonDags(home, host);
    SettingsSplit(home, major, port, signingSecret, host);
    MajorLeavesCommon(home, major, port, signingSecret, host, "PATH");
    MajorLeavesCommon(home, major, port, signingSecret, host, "PYTHONPATH");
    MajorLeavesCommon(home, major, port, signingSecret, host, "AIRFLOW_HOME");
    MajorLeavesCommon(home, major, port, signingSecret, host, AirflowKey("CORE", "LOAD_EXAMPLES"));
    MajorLeavesCommon(home, major, port, signingSecret, host, AirflowKey("CORE", "DAGS_FOLDER"));
  }

  /** Each signing key is in the environment exactly once, with this secret. */
  ghost predicate SignsWith(env: seq<string>, major: string, secret: string) {
    forall key :: key in SigningKeys(major) ==> EntriesFor(env, key) == [Join(key, secret)]
  }

  lemma SigningKeysAreSet(home: string, major: string, port: string, signingSecret: string, host: Host, key: string)
    requires key in SigningKeys(major)
    ensures key in Settings(home, major, port, signingSecret, host)
    ensures Settings(home, major, port, signingSecret, host)[key] == signingSecret
    ensures key !in {"NO_PROXY", "no_proxy"} && '=' !in key
  {
    hide CommonSettings, AirflowKey;
    KeyLength("API", "SECRET_KEY");
    KeyLength("API_AUTH", "JWT_SECRET");
    KeyLength("WEBSERVER", "SECRET_KEY");
    KeyLength("WEBSERVER", "EXPOSE_CONFIG");
    SettingsArePlain(home, major, port, signingSecret, host);
  }
}
