/** Invoking an alias on a mapping (lib/named_validations.rb:56, 66, 84).

    Ruby installs each alias with `define_method`; here a class's method
    table maps each alias name to one of the three shapes the library itself
    defines, and `Invoke` is what `obj.public_send(name, *args)` does with it.
 */
module Dispatch {
  import opened Values
  import Merge

  /** The body installed under an alias name. */
  datatype AliasDef =
      /** `define_for(name)`: `{ |arg, *opts| deep_merge(name, arg, *opts) }` */
    | Builtin(validation: Name)
      /** `define_by_value`: `->(*opts) { public_send(validation, params, *opts) }` */
    | ValueAlias(target: Name, params: Value)
      /** `define(:defaults) { |default_opts| merge(default_opts) }` */
    | Defaults

  /** What a call can raise: NoMethodError, ArgumentError (arity), TypeError
      (`merge` of a non-Hash) and SystemStackError (a cyclic alias chain). */
  datatype CallError = NoMethod | WrongArity | NotAHash | StackTooDeep

  /** A class's method table, restricted to alias methods. */
  type Table = map<Name, AliasDef>

  /** `m.public_send(name, *args)`. A value alias re-dispatches by name at
      call time, in the same table; `fuel` bounds the depth of that chain and
      stands for Ruby's stack limit. Methods installed by `define_method`
      check their arity like lambdas, so a built-in needs at least one
      argument and `defaults` exactly one. An alias never drops a name. */
  function Invoke(table: Table, m: Mapping, name: Name, args: seq<Value>, fuel: nat): (r: Result<Mapping, CallError>)
    ensures r.Ok? ==> name in table && m.Keys <= r.value.Keys
    ensures name !in table ==> r == Err(NoMethod)
    decreases fuel
  {
    if name !in table then Err(NoMethod)
    else match table[name]
      case Builtin(v) =>
        if |args| == 0 then Err(WrongArity)
        else Ok(Merge.DeepMerge(m, v, args[0], args[1..]))
      case Defaults =>
        if |args| != 1 then Err(WrongArity)
        else if !args[0].Dict? then Err(NotAHash)
        else Ok(Merge.Defaults(m, args[0].entries))
      case ValueAlias(target, params) =>
        if fuel == 0 then Err(StackTooDeep)
        else Invoke(table, m, target, [params] + args, fuel - 1)
  }

  /** A built-in alias is `deep_merge` on its own name, with the first
      argument as the parameter and the rest as options. */
  lemma InvokeBuiltin(table: Table, m: Mapping, name: Name, p: Value, opts: seq<Value>, fuel: nat)
    requires name in table && table[name].Builtin?
    ensures Invoke(table, m, name, [p] + opts, fuel) == Ok(Merge.DeepMerge(m, table[name].validation, p, opts))
    ensures Invoke(table, m, name, [], fuel) == Err(WrongArity)
  {
  }

  /** `defaults` takes exactly one argument, which must be a Hash, and is
      `Hash#merge` of it. */
  lemma InvokeDefaults(table: Table, m: Mapping, name: Name, args: seq<Value>, fuel: nat)
    requires name in table && table[name] == Defaults
    ensures |args| == 1 && args[0].Dict? ==> Invoke(table, m, name, args, fuel) == Ok(Merge.Defaults(m, args[0].entries))
    ensures |args| != 1 ==> Invoke(table, m, name, args, fuel) == Err(WrongArity)
    ensures |args| == 1 && args[0].Scalar? ==> Invoke(table, m, name, args, fuel) == Err(NotAHash)
  {
  }

  /** A value alias whose target is a built-in composes the target's
      validation with the alias's fixed parameters, then the caller's options. */
  lemma ValueAliasOfBuiltin(table: Table, m: Mapping, a: Name, opts: seq<Value>, fuel: nat)
    requires a in table && table[a].ValueAlias?
    requires table[a].target in table && table[table[a].target].Builtin?
    requires fuel >= 1
    ensures Invoke(table, m, a, opts, fuel)
         == Ok(Merge.DeepMerge(m, table[table[a].target].validation, table[a].params, opts))
  {
  }

  /** A value alias of a value alias of a built-in (`nesting` in
      test/named_validations_test.rb:17): the inner alias's parameters come
      first, the outer alias's next, the caller's options last. */
  lemma ValueAliasOfValueAlias(table: Table, m: Mapping, a: Name, opts: seq<Value>, fuel: nat)
    requires a in table && table[a].ValueAlias?
    requires table[a].target in table && table[table[a].target].ValueAlias?
    requires table[table[a].target].target in table && table[table[table[a].target].target].Builtin?
    requires fuel >= 2
    ensures Invoke(table, m, a, opts, fuel)
         == Ok(Merge.DeepMerge(m, table[table[table[a].target].target].validation,
                               table[table[a].target].params, [table[a].params] + opts))
  {
    ValueAliasOfBuiltin(table, m, table[a].target, [table[a].params] + opts, fuel - 1);
  }

  /** More stack never changes the outcome of a call that did not overflow. */
  lemma {:induction false} InvokeFuelMonotone(table: Table, m: Mapping, name: Name, args: seq<Value>, fuel: nat, more: nat)
    requires Invoke(table, m, name, args, fuel) != Err(StackTooDeep)
    requires fuel <= more
    ensures Invoke(table, m, name, args, more) == Invoke(table, m, name, args, fuel)
    decreases fuel
  {
    if name in table && table[name].ValueAlias? {
      var target, params := table[name].target, table[name].params;
      InvokeFuelMonotone(table, m, target, [params] + args, fuel - 1, more - 1);
    }
  }

  /** `rank` strictly decreases along every value-alias edge that stays
      inside the table: the alias graph has no cycle. */
  ghost predicate Ranked(table: Table, rank: map<Name, nat>)
  {
    && table.Keys <= rank.Keys
    && forall a :: a in table && table[a].ValueAlias? && table[a].target in table ==>
         rank[table[a].target] < rank[a]
  }

  /** In an acyclic table a call never overflows once the stack is deeper
      than the called alias's rank. */
  lemma {:induction false} RankedNeverOverflows(table: Table, rank: map<Name, nat>, m: Mapping, name: Name, args: seq<Value>, fuel: nat)
    requires Ranked(table, rank)
    requires name in table && fuel > rank[name]
    ensures Invoke(table, m, name, args, fuel) != Err(StackTooDeep)
    decreases fuel
  {
    if table[name].ValueAlias? {
      var target, params := table[name].target, table[name].params;
      if target in table {
        RankedNeverOverflows(table, rank, m, target, [params] + args, fuel - 1);
      }
    }
  }

  /** Two value aliases that target each other overflow whatever the depth. */
  lemma {:induction false} MutualAliasesOverflow(table: Table, m: Mapping, a: Name, b: Name, args: seq<Value>, fuel: nat)
    requires a in table && b in table
    requires table[a].ValueAlias? && table[a].target == b
    requires table[b].ValueAlias? && table[b].target == a
    ensures Invoke(table, m, a, args, fuel) == Err(StackTooDeep)
    ensures Invoke(table, m, b, args, fuel) == Err(StackTooDeep)
    decreases fuel
  {
    if fuel > 0 {
      MutualAliasesOverflow(table, m, a, b, [table[a].params] + args, fuel - 1);
      MutualAliasesOverflow(table, m, a, b, [table[b].params] + args, fuel - 1);
    }
  }
}
