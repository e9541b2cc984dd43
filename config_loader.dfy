// backend/terrapi/config_loader.py: the `Config` wrapper with attribute
// access, `${NAME}` environment substitution over a loaded configuration, and
// the construction of sensors and controls from their `type` field.

module ConfigLoader {
  import opened PyValues

  /** A configuration node: a wrapper around one dict. */
  datatype Config = Config(data: Entries) {

    /**
     * `config.name` (`__getattr__`): a missing key and a key whose value is
     * None both raise AttributeError, and so does a private name; a dict
     * value comes back wrapped.
     */
    function GetAttr(name: string): (r: Result<Obj>)
    {
      if |name| > 0 && name[0] == '_' then Err(AttributeError)
      else
        match Lookup(data, name)
        case None => Err(AttributeError)
        case Some(v) => if v == Null then Err(AttributeError) else Ok(Wrap(v))
    }

    /** `hasattr(config, name)`: attribute access does not raise. */
    predicate HasAttr(name: string)
    {
      GetAttr(name).Ok?
    }

    /** `config[key]` (`__getitem__`): a missing key raises KeyError; None comes back as None. */
    function GetItem(key: string): (r: Result<Obj>)
    {
      match Lookup(data, key)
      case None => Err(KeyError)
      case Some(v) => Ok(Wrap(v))
    }

    /** `config.get(key, default)`: the stored value, or the default when the key is absent; dicts wrapped. */
    function Get(key: string, default: Value): (r: Obj)
    {
      match Lookup(data, key)
      case None => Wrap(default)
      case Some(v) => Wrap(v)
    }

    /** `config.keys()`. */
    function KeyList(): seq<string>
    {
      Keys(data)
    }

    /** `config.to_dict()`: the wrapped dict itself. */
    function ToDict(): Value
    {
      Dict(data)
    }
  }

  /** What a `Config` accessor hands back: a dict wrapped in a fresh `Config`, anything else as it is. */
  datatype Obj = Raw(v: Value) | Wrapped(c: Config)

  /** How a value read out of a `Config` comes back. */
  function Wrap(v: Value): (o: Obj)
    ensures o.Raw? <==> !v.Dict?
    ensures o.Wrapped? ==> o.c.ToDict() == v
    ensures o.Raw? ==> o.v == v
  {
    if v.Dict? then Wrapped(Config(v.entries)) else Raw(v)
  }

  /** Python truthiness of an accessor's result: a `Config` defines neither `__bool__` nor `__len__`, so it is always true. */
  predicate ObjTruthy(o: Obj)
  {
    match o
    case Raw(v) => Truthy(v)
    case Wrapped(_) => true
  }

  /** Attribute access raises exactly when the key is private, missing, or holds None. */
  lemma {:induction false} GetAttrRaises(c: Config, name: string)
    ensures c.GetAttr(name).Err? <==>
      (|name| > 0 && name[0] == '_') || name !in Keys(c.data) || Lookup(c.data, name) == Some(Null)
    ensures c.GetAttr(name).Err? ==> c.GetAttr(name).exc == AttributeError
  {
  }

  /**
   * The three accessors agree on a key that holds a value other than None;
   * on a None value only attribute access raises, and on a missing key only
   * `get` does not raise.
   */
  lemma AccessorsAgree(c: Config, key: string, default: Value)
    requires |key| > 0 && key[0] != '_'
    ensures Lookup(c.data, key).Some? && Lookup(c.data, key) != Some(Null) ==>
      c.GetAttr(key) == c.GetItem(key) == Ok(c.Get(key, default))
    ensures Lookup(c.data, key) == Some(Null) ==>
      c.GetAttr(key).Err? && c.GetItem(key) == Ok(Raw(Null)) && c.Get(key, default) == Raw(Null)
    ensures key !in Keys(c.data) ==>
      c.GetAttr(key) == Err(AttributeError) && c.GetItem(key) == Err(KeyError) && c.Get(key, default) == Wrap(default)
  {
  }

  /** A nested dict read through a `Config` is wrapped, and `to_dict` on the wrapper gives the stored dict back. */
  lemma NestedRoundTrip(c: Config, key: string)
    requires DistinctKeys(c.data)
    requires key in Keys(c.data) && Lookup(c.data, key).value.Dict?
    ensures c.GetItem(key).Ok? && c.GetItem(key).value.Wrapped?
    ensures c.GetItem(key).value.c.ToDict() == Lookup(c.data, key).value
  {
  }

  // ---------------------------------------------------------------------
  // Environment substitution

  /** `os.environ.get(name, '')`. */
  function EnvValue(env: map<string, string>, name: string): string
  {
    if name in env then env[name] else ""
  }

  /** The position of the first `}` in `s`, if any. */
  function CloseBrace(s: string): (r: Option<nat>)
    ensures r.Some? ==> r.value < |s| && s[r.value] == '}' && '}' !in s[..r.value]
    ensures r.None? ==> '}' !in s
  {
    if |s| == 0 then None
    else if s[0] == '}' then Some(0)
    else
      match CloseBrace(s[1..])
      case None => None
      case Some(j) =>
        assert s[..j + 1] == [s[0]] + s[1..][..j];
        Some(j + 1)
  }

  /**
   * `re.sub(r'\$\{([^}]+)\}', replacer, s)`: scanning left to right, each
   * `${NAME}` with a non-empty NAME up to the first `}` is replaced by the
   * variable's value; replaced text is not scanned again.
   */
  function Substitute(s: string, env: map<string, string>): string
    decreases |s|
  {
    if |s| == 0 then ""
    else if |s| >= 2 && s[0] == '$' && s[1] == '{' && CloseBrace(s[2..]).Some? && CloseBrace(s[2..]).value > 0 then
      var j := CloseBrace(s[2..]).value;
      EnvValue(env, s[2..2 + j]) + Substitute(s[3 + j..], env)
    else [s[0]] + Substitute(s[1..], env)
  }

  /** `substitute_env_vars(value)`: strings are substituted, any other value comes back unchanged. */
  function SubstituteEnvVars(v: Value, env: map<string, string>): (r: Value)
    ensures !v.Str? ==> r == v
    ensures v.Str? ==> r.Str?
  {
    if v.Str? then Str(Substitute(v.s, env)) else v
  }

  /** A first character other than `$` is copied as it is. */
  lemma SubstituteCopiesPlainChar(s: string, env: map<string, string>)
    requires |s| > 0 && s[0] != '$'
    ensures Substitute(s, env) == [s[0]] + Substitute(s[1..], env)
  {
  }

  /** Text without a `$` passes through substitution untouched. */
  lemma {:induction false} SubstitutePlainPrefix(t: string, rest: string, env: map<string, string>)
    requires '$' !in t
    ensures Substitute(t + rest, env) == t + Substitute(rest, env)
  {
    if |t| == 0 {
      assert t + rest == rest;
    } else {
      var s := t + rest;
      assert s[0] == t[0];
      assert s[1..] == t[1..] + rest;
      assert '$' !in t[1..] by {
        forall i | 0 <= i < |t[1..]| ensures t[1..][i] != '$' {
          assert t[1..][i] == t[i + 1];
        }
      }
      var x := Substitute(rest, env);
      calc {
        Substitute(s, env);
        { SubstituteCopiesPlainChar(s, env); }
        [t[0]] + Substitute(t[1..] + rest, env);
        { SubstitutePlainPrefix(t[1..], rest, env); }
        [t[0]] + (t[1..] + x);
        { assert [t[0]] + t[1..] == t; }
        t + x;
      }
    }
  }

  /** The first `}` after a brace-free name is the one that closes it. */
  lemma {:induction false} CloseBraceAfter(name: string, rest: string)
    requires '}' !in name
    ensures CloseBrace(name + "}" + rest) == Some(|name|)
  {
    if |name| > 0 {
      var u := name + "}" + rest;
      assert u[0] == name[0];
      assert u[1..] == name[1..] + "}" + rest;
      assert '}' !in name[1..] by {
        forall i | 0 <= i < |name[1..]| ensures name[1..][i] != '}' {
          assert name[1..][i] == name[i + 1];
        }
      }
      CloseBraceAfter(name[1..], rest);
    }
  }

  /** A placeholder `${name}` at the front is replaced by the variable's value. */
  lemma SubstitutePlaceholder(name: string, rest: string, env: map<string, string>)
    requires |name| > 0 && '}' !in name
    ensures Substitute("${" + name + "}" + rest, env) == EnvValue(env, name) + Substitute(rest, env)
  {
    var s := "${" + name + "}" + rest;
    assert s[2..] == name + "}" + rest;
    CloseBraceAfter(name, rest);
    assert s[2..2 + |name|] == name;
    assert s[3 + |name|..] == rest;
  }

  /** A piece of a configuration string: plain text, or a `${NAME}` placeholder. */
  datatype Piece = Text(t: string) | Var(name: string)

  predicate WellFormedPieces(ps: seq<Piece>)
  {
    forall i :: 0 <= i < |ps| ==>
      match ps[i]
      case Text(t) => '$' !in t
      case Var(n) => |n| > 0 && '}' !in n
  }

  /** The string as written in the configuration file. */
  function Source(ps: seq<Piece>): string
  {
    if ps == [] then ""
    else
      (match ps[0]
       case Text(t) => t
       case Var(n) => "${" + n + "}") + Source(ps[1..])
  }

  /** The intended reading: each placeholder stands for the variable's value. */
  function Render(ps: seq<Piece>, env: map<string, string>): string
  {
    if ps == [] then ""
    else
      (match ps[0]
       case Text(t) => t
       case Var(n) => EnvValue(env, n)) + Render(ps[1..], env)
  }

  /** Substitution on the written form gives exactly the rendered string. */
  lemma {:induction false} SubstituteRenders(ps: seq<Piece>, env: map<string, string>)
    requires WellFormedPieces(ps)
    ensures Substitute(Source(ps), env) == Render(ps, env)
  {
    if ps != [] {
      assert WellFormedPieces(ps[1..]) by {
        forall i | 0 <= i < |ps[1..]| ensures ps[1..][i] == ps[i + 1] {}
      }
      SubstituteRenders(ps[1..], env);
      match ps[0]
      case Text(t) =>
        SubstitutePlainPrefix(t, Source(ps[1..]), env);
      case Var(n) =>
        assert Source(ps) == "${" + n + "}" + Source(ps[1..]);
        SubstitutePlaceholder(n, Source(ps[1..]), env);
    }
  }

  // ---------------------------------------------------------------------
  // Whole-configuration processing

  /** `process_config(data)`: substitution into every string leaf; dict keys are left alone. */
  function ProcessConfig(v: Value, env: map<string, string>): Value
    decreases v
  {
    match v
    case Dict(es) => Dict(seq(|es|, i requires 0 <= i < |es| => (es[i].0, ProcessConfig(es[i].1, env))))
    case List(xs) => List(seq(|xs|, i requires 0 <= i < |xs| => ProcessConfig(xs[i], env)))
    case Str(s) => Str(Substitute(s, env))
    case _ => v
  }

  /** Two values of the same shape: the same keys in the same order, the same list lengths, strings where there were strings, every other leaf equal. */
  predicate SameShape(a: Value, b: Value)
    decreases a
  {
    match a
    case Dict(es) =>
      b.Dict? && |b.entries| == |es| &&
      forall i :: 0 <= i < |es| ==> b.entries[i].0 == es[i].0 && SameShape(es[i].1, b.entries[i].1)
    case List(xs) =>
      b.List? && |b.items| == |xs| &&
      forall i :: 0 <= i < |xs| ==> SameShape(xs[i], b.items[i])
    case Str(_) => b.Str?
    case _ => b == a
  }

  /** `process_config` preserves the structure of the configuration. */
  lemma {:induction false} ProcessConfigShape(v: Value, env: map<string, string>)
    ensures SameShape(v, ProcessConfig(v, env))
    decreases v
  {
    match v
    case Dict(es) =>
      forall i | 0 <= i < |es| ensures SameShape(es[i].1, ProcessConfig(es[i].1, env)) {
        ProcessConfigShape(es[i].1, env);
      }
    case List(xs) =>
      forall i | 0 <= i < |xs| ensures SameShape(xs[i], ProcessConfig(xs[i], env)) {
        ProcessConfigShape(xs[i], env);
      }
    case _ =>
  }

  /** No string anywhere in the value contains a `$`. */
  predicate DollarFree(v: Value)
    decreases v
  {
    match v
    case Dict(es) => forall i :: 0 <= i < |es| ==> DollarFree(es[i].1)
    case List(xs) => forall i :: 0 <= i < |xs| ==> DollarFree(xs[i])
    case Str(s) => '$' !in s
    case _ => true
  }

  /** A configuration without placeholders comes out of `process_config` unchanged. */
  lemma {:induction false} ProcessConfigIdentity(v: Value, env: map<string, string>)
    requires DollarFree(v)
    ensures ProcessConfig(v, env) == v
    decreases v
  {
    match v
    case Dict(es) =>
      forall i | 0 <= i < |es| ensures ProcessConfig(es[i].1, env) == es[i].1 {
        ProcessConfigIdentity(es[i].1, env);
      }
      assert Dict(seq(|es|, i requires 0 <= i < |es| => (es[i].0, ProcessConfig(es[i].1, env)))).entries == es;
    case List(xs) =>
      forall i | 0 <= i < |xs| ensures ProcessConfig(xs[i], env) == xs[i] {
        ProcessConfigIdentity(xs[i], env);
      }
      assert List(seq(|xs|, i requires 0 <= i < |xs| => ProcessConfig(xs[i], env))).items == xs;
    case Str(s) =>
      SubstitutePlainPrefix(s, "", env);
      assert s + "" == s;
    case _ =>
  }

  // ---------------------------------------------------------------------
  // Sensor and control construction

  /** An object built by a sensor or control class: the class name and the keyword arguments it received. */
  datatype Instance = Instance(className: string, kwargs: Entries)

  /** `{k: v for k, v in config.items() if k != key}`. */
  function WithoutKey(es: Entries, key: string): (r: Entries)
    ensures forall e :: e in r <==> e in es && e.0 != key
  {
    if es == [] then []
    else if es[0].0 == key then WithoutKey(es[1..], key)
    else [es[0]] + WithoutKey(es[1..], key)
  }

  /**
   * One entry of `instantiate_sensors` / `instantiate_controls`: the config
   * must be a dict (`config.get`), its `type` must be truthy, a string
   * (`getattr` on a module), and a class of the module; the class is then
   * called with every other field.
   */
  function InstanceOf(config: Value, registry: set<string>): Result<Instance>
  {
    if !config.Dict? then Err(AttributeError)
    else
      match Lookup(config.entries, "type")
      case None => Err(ValueError)
      case Some(t) =>
        if !Truthy(t) then Err(ValueError)
        else if !t.Str? then Err(TypeError)
        else if t.s !in registry then Err(ValueError)
        else Ok(Instance(t.s, WithoutKey(config.entries, "type")))
  }

  /** A constructible entry: a dict whose `type` names a registered class. */
  predicate Constructible(config: Value, registry: set<string>)
  {
    config.Dict? && Lookup(config.entries, "type").Some? &&
    Lookup(config.entries, "type").value.Str? && Lookup(config.entries, "type").value.s in registry &&
    Lookup(config.entries, "type").value.s != ""
  }

  lemma InstanceOfOk(config: Value, registry: set<string>)
    ensures InstanceOf(config, registry).Ok? <==> Constructible(config, registry)
    ensures InstanceOf(config, registry).Ok? ==>
      InstanceOf(config, registry).value.className == Lookup(config.entries, "type").value.s &&
      InstanceOf(config, registry).value.kwargs == WithoutKey(config.entries, "type")
  {
  }

  /**
   * The loop of `instantiate_sensors` and `instantiate_controls` (the two
   * differ only in the module searched, here `registry`): it succeeds only
   * when every entry can be built, and then yields one instance per name, in
   * order, each given every field except `type`.
   */
  function InstantiateEntries(configs: Entries, registry: set<string>): (r: Result<seq<(string, Instance)>>)
    ensures r.Ok? <==> forall i :: 0 <= i < |configs| ==> Constructible(configs[i].1, registry)
    ensures r.Ok? ==> |r.value| == |configs|
    ensures r.Ok? ==> forall i :: 0 <= i < |configs| ==>
      r.value[i] == (configs[i].0, Instance(Lookup(configs[i].1.entries, "type").value.s, WithoutKey(configs[i].1.entries, "type")))
  {
    if configs == [] then Ok([])
    else
      InstanceOfOk(configs[0].1, registry);
      match InstanceOf(configs[0].1, registry)
      case Err(e) => Err(e)
      case Ok(inst) =>
        var rest := InstantiateEntries(configs[1..], registry);
        assert forall i :: 1 <= i < |configs| ==> configs[i] == configs[1..][i - 1];
        if rest.Err? then Err(rest.exc) else Ok([(configs[0].0, inst)] + rest.value)
  }

  /** A failure is the exception of the first entry that cannot be built. */
  lemma {:induction false} InstantiateFirstError(configs: Entries, registry: set<string>)
    requires InstantiateEntries(configs, registry).Err?
    ensures exists i :: 0 <= i < |configs| && InstanceOf(configs[i].1, registry) == Err(InstantiateEntries(configs, registry).exc)
                        && (forall j :: 0 <= j < i ==> Constructible(configs[j].1, registry))
  {
    InstanceOfOk(configs[0].1, registry);
    if InstanceOf(configs[0].1, registry).Ok? {
      InstantiateFirstError(configs[1..], registry);
      var i :| 0 <= i < |configs[1..]| && InstanceOf(configs[1..][i].1, registry) == Err(InstantiateEntries(configs[1..], registry).exc) &&
        (forall j :: 0 <= j < i ==> Constructible(configs[1..][j].1, registry));
      assert configs[1..][i] == configs[i + 1];
      forall j | 0 <= j < i + 1 ensures Constructible(configs[j].1, registry) {
        if j > 0 { assert configs[1..][j - 1] == configs[j]; }
      }
    }
  }

  /** `instantiate_sensors(config)` / `instantiate_controls(config)`: `config.items()` needs a dict. */
  function Instantiate(configs: Value, registry: set<string>): (r: Result<seq<(string, Instance)>>)
    ensures !configs.Dict? ==> r == Err(AttributeError)
    ensures configs.Dict? ==> r == InstantiateEntries(configs.entries, registry)
  {
    if configs.Dict? then InstantiateEntries(configs.entries, registry) else Err(AttributeError)
  }
}
