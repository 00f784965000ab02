/** The intermediate representation: the expressions that a program submits, the
    sampling parameters, and the objects that tracing links together. */
module Ir {
  import opened Prelude

  /** A single stop string is the list holding just that string. */
  datatype Params = Params(maxNewTokens: nat, stop: Option<seq<string>>, others: map<string, string>)

  datatype Overrides = Overrides(maxNewTokens: Option<nat>, stop: Option<seq<string>>, others: map<string, string>)

  /** The values given at `gen` replace the defaults of the run. */
  function ResolveParams(defaults: Params, o: Overrides): Params {
    Params(if o.maxNewTokens.Some? then o.maxNewTokens.value else defaults.maxNewTokens,
           if o.stop.Some? then o.stop else defaults.stop,
           defaults.others + o.others)
  }

  /** Whatever is set at a generation has that value; whatever is not has the value of the run, if any. */
  ghost predicate Governed(p: Params, defaults: Params, o: Overrides) {
    && (o.maxNewTokens.Some? ==> p.maxNewTokens == o.maxNewTokens.value)
    && (o.maxNewTokens.None? ==> p.maxNewTokens == defaults.maxNewTokens)
    && (o.stop.Some? ==> p.stop == o.stop) && (o.stop.None? ==> p.stop == defaults.stop)
    && (forall name :: name in o.others ==> name in p.others && p.others[name] == o.others[name])
    && (forall name :: name in defaults.others && name !in o.others ==>
          name in p.others && p.others[name] == defaults.others[name])
    && (forall name :: name in p.others ==> name in o.others || name in defaults.others)
  }

  lemma ResolvedIsGoverned(p: Params, defaults: Params, o: Overrides)
    ensures p == ResolveParams(defaults, o) <==> Governed(p, defaults, o)
  {
    if Governed(p, defaults, o) {
      assert p.others.Keys == ResolveParams(defaults, o).others.Keys;
      assert p.others == ResolveParams(defaults, o).others;
    }
  }

  /** Two runs agree on whatever is not set at the generation. */
  ghost predicate AgreeBeyond(defaults: Params, defaults': Params, o: Overrides) {
    && (o.maxNewTokens.Some? || defaults.maxNewTokens == defaults'.maxNewTokens)
    && (o.stop.Some? || defaults.stop == defaults'.stop)
    && (forall name :: name !in o.others ==>
          (name in defaults.others <==> name in defaults'.others) &&
          (name in defaults.others ==> defaults.others[name] == defaults'.others[name]))
  }

  /** A generation asks the same under two defaults exactly when they agree on what it leaves open. */
  lemma AsksAlikeIff(defaults: Params, defaults': Params, o: Overrides)
    ensures ResolveParams(defaults, o) == ResolveParams(defaults', o) <==> AgreeBeyond(defaults, defaults', o)
  {
    var p, p' := ResolveParams(defaults, o), ResolveParams(defaults', o);
    ResolvedIsGoverned(p, defaults, o);
    ResolvedIsGoverned(p', defaults', o);
    if AgreeBeyond(defaults, defaults', o) {
      assert Governed(p, defaults', o);
      ResolvedIsGoverned(p, defaults', o);
    }
  }

  /** The key a `gen` or `select` stores its result under: Python's None when it has no name. */
  type Key = Option<string>

  /** A deterministic backend: what it generates depends on the text so far and the parameters. */
  datatype Backend = Backend(generate: (string, Params) -> string, select: (string, seq<string>) -> string)

  /** IR objects are known by their node_id: appending one object twice appends one Id twice. */
  type Id = nat

  datatype Kind =
    | Const(value: string)
    | Argument(name: string)
    | Gen(key: Key, overrides: Overrides)
    | Select(key: Key, choices: seq<string>)
    | Variable(name: string, source: Id)
}
