/** The class-level alias registry of `NamedValidations`
    (lib/named_validations.rb:7-84).

    Each Ruby class in the `NamedValidations` lineage has its own `@aliases`
    array and its own methods; `ValidationClass` holds both, the array as a
    sequence and the alias methods as a `Dispatch.Table`.
 */
module Registry {
  import opened Values
  import opened Dispatch

  /** `RESERVED`: names an alias may not take, since the mapping itself
      needs them. */
  const Reserved: set<Name> :=
    {"extractable_options?", "class", "inspect", "merge", "deep_merge", "deep_merge_internal"}

  /** The validations seeded by `define_for`, in the order of the calls. */
  const BuiltinNames: seq<Name> :=
    ["absence", "confirmation", "format", "inclusion", "numericality", "acceptance",
     "exclusion", "length", "presence", "uniqueness", "associated", "size"]

  /** The base class's alias list: the built-ins, then `defaults`. */
  const BaseNames: seq<Name> := BuiltinNames + ["defaults"]

  /** What `define` is given after the name: a block, or a target
      validation and its fixed parameters. */
  datatype Spec = Block(body: AliasDef) | ByValue(validation: Name, params: Value)

  /** The two `ArgumentError`s `define` raises. */
  datatype DefineError = ReservedName | UnknownAlias

  /** The method a successful definition installs. */
  function Installed(spec: Spec): AliasDef
  {
    match spec
    case Block(body) => body
    case ByValue(validation, params) => ValueAlias(validation, params)
  }

  class ValidationClass {
    /** `aliases`: every alias defined on or copied into this class, in order. */
    var aliases: seq<Name>
    /** The alias methods this class responds to. */
    var table: Table

    /** Every listed alias has a method, and every alias method is listed. */
    ghost predicate Valid()
      reads this
    {
      forall n :: n in aliases <==> n in table
    }

    /** `NamedValidations` itself: `define_for` on each built-in validation in
        turn, then `define(:defaults)` (lines 70-84). */
    constructor Base()
      ensures Valid()
      ensures aliases == BaseNames
      ensures forall i :: 0 <= i < |BuiltinNames| ==> table[BuiltinNames[i]] == Builtin(BuiltinNames[i])
      ensures table["defaults"] == Defaults
    {
      aliases := [];
      table := map[];
      new;
      assert forall n :: n in BaseNames ==> n !in Reserved;
      var r: Result<Name, DefineError>;
      for i := 0 to |BuiltinNames|
        invariant Valid()
        invariant aliases == BuiltinNames[..i]
        invariant forall j :: 0 <= j < i ==> table[BuiltinNames[j]] == Builtin(BuiltinNames[j])
      {
        r := DefineFor(BuiltinNames[i]);
      }
      r := Define("defaults", Block(Defaults));
    }

    /** `Class.new(parent)`: the `inherited` hook appends each of the
        parent's aliases, as they are at this moment, to the new class's list. */
    constructor Derive(parent: ValidationClass)
      requires parent.Valid()
      ensures Valid()
      ensures aliases == parent.aliases && table == parent.table
    {
      aliases := [];
      table := parent.table;
      new;
      var i := 0;
      while i < |parent.aliases|
        invariant 0 <= i <= |parent.aliases|
        invariant aliases == parent.aliases[..i]
        invariant table == parent.table
      {
        aliases := aliases + [parent.aliases[i]];
        i := i + 1;
      }
    }

    /** `define(name, *spec, &block)`: refuses a reserved name, otherwise
        defines by block or by value. */
    method Define(name: Name, spec: Spec) returns (r: Result<Name, DefineError>)
      requires Valid()
      modifies this
      ensures Valid()
      ensures r.Ok? <==> name !in Reserved && (spec.ByValue? ==> spec.validation in old(aliases))
      ensures name in Reserved ==> r == Err(ReservedName)
      ensures name !in Reserved && spec.ByValue? && spec.validation !in old(aliases) ==> r == Err(UnknownAlias)
      ensures r.Ok? ==> r.value == name && aliases == old(aliases) + [name]
                        && table == old(table)[name := Installed(spec)]
      ensures r.Err? ==> aliases == old(aliases) && table == old(table)
    {
      if name in Reserved {
        return Err(ReservedName);
      }
      match spec {
        case Block(body) =>
          var n := DefineByBlock(name, body);
          r := Ok(n);
        case ByValue(validation, params) =>
          r := DefineByValue(name, validation, params);
      }
    }

    /** `define_by_block(name, block)`: installs the method and appends the
        name, whether or not it is already listed. */
    method DefineByBlock(name: Name, body: AliasDef) returns (r: Name)
      requires Valid()
      modifies this
      ensures Valid()
      ensures r == name
      ensures aliases == old(aliases) + [name] && table == old(table)[name := body]
    {
      table := table[name := body];
      aliases := aliases + [name];
      r := name;
    }

    /** `define_by_value(name, validation, params)`: the target must already
        be listed; the installed method re-dispatches to it by name. */
    method DefineByValue(name: Name, validation: Name, params: Value) returns (r: Result<Name, DefineError>)
      requires Valid()
      modifies this
      ensures Valid()
      ensures validation in old(aliases) ==>
        && r == Ok(name)
        && aliases == old(aliases) + [name]
        && table == old(table)[name := ValueAlias(validation, params)]
      ensures validation !in old(aliases) ==>
        r == Err(UnknownAlias) && aliases == old(aliases) && table == old(table)
    {
      if validation !in aliases {
        return Err(UnknownAlias);
      }
      var n := DefineByBlock(name, ValueAlias(validation, params));
      r := Ok(n);
    }

    /** `define_for(name)`: an alias that deep-merges into its own name. */
    method DefineFor(name: Name) returns (r: Result<Name, DefineError>)
      requires Valid()
      modifies this
      ensures Valid()
      ensures name in Reserved ==> r == Err(ReservedName) && aliases == old(aliases) && table == old(table)
      ensures name !in Reserved ==>
        r == Ok(name) && aliases == old(aliases) + [name] && table == old(table)[name := Builtin(name)]
    {
      r := Define(name, Block(Builtin(name)));
    }
  }

  // ---------------------------------------------------------------------
  // Scenarios over whole class lineages.

  /** A subclass starts from a copy of its parent's list; definitions on
      either afterwards stay on that side (test/named_validations_test.rb:99-110). */
  method DerivedListsAreCopies() returns (baseNames: seq<Name>, parentNames: seq<Name>, childNames: seq<Name>)
    ensures baseNames == BaseNames
    ensures parentNames == BaseNames + ["testing", "later"]
    ensures childNames == BaseNames + ["testing", "sub_testing"]
  {
    var base := new ValidationClass.Base();
    var vals := new ValidationClass.Derive(base);
    var r := vals.Define("testing", ByValue("presence", Scalar(Bool(true))));
    var sub := new ValidationClass.Derive(vals);
    r := sub.Define("sub_testing", ByValue("presence", Scalar(Bool(true))));
    r := vals.Define("later", ByValue("testing", Scalar(Bool(false))));
    baseNames, parentNames, childNames := base.aliases, vals.aliases, sub.aliases;
  }

  /** Redefining a built-in as a value alias of an alias that targets it is
      accepted, lists the name twice, and leaves a call that never returns. */
  method RedefinitionCanLoop(fuel: nat) returns (names: seq<Name>, r: Result<Values.Mapping, CallError>)
    ensures names == BaseNames + ["testing", "presence"]
    ensures r == Err(StackTooDeep)
  {
    var base := new ValidationClass.Base();
    var vals := new ValidationClass.Derive(base);
    var d := vals.Define("testing", ByValue("presence", Scalar(Bool(true))));
    d := vals.Define("presence", ByValue("testing", Scalar(Bool(false))));
    names := vals.aliases;
    MutualAliasesOverflow(vals.table, map[], "testing", "presence", [], fuel);
    r := Invoke(vals.table, map[], "presence", [], fuel);
  }
}
