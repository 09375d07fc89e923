# named_validations in Dafny

A model of the Ruby library `named_validations` (`lib/named_validations.rb`).
`NamedValidations` is a Hash subclass: an instance maps validation names
(`presence`, `format`, …) to parameters. Each class in the
`NamedValidations` lineage keeps a list of alias names and the alias
methods. Calling an alias returns a new Hash with one validation merged in.
The receiver is never changed.

The project has four modules:

- `Values` (`values.dfy`) holds the data. A parameter is `Scalar(atom)` or
  `Dict(map)`, and the constructor tag plays the part of `is_a?(Hash)`.
  A mapping is `map<Name, Value>`.
- `Merge` (`merge.dfy`) is the merge engine: `deep_merge_internal`,
  `deep_merge` and `defaults` as functions, with lemmas about them. The
  nested merge is a Ruby `inject` over the entries of `params`. It is
  written out as the ghost function `InjectMerge` and proved equal to
  `Hash#merge` for every order of the entries.
- `Dispatch` (`dispatch.dfy`) models calling an alias. A class's alias
  methods form a table from name to one of three shapes:
  - `Builtin(name)`, the block `define_for` installs;
  - `ValueAlias(target, params)`, the lambda `define_by_value` installs;
  - `Defaults`, the block behind `defaults`.

  `Invoke` is `public_send`. A value alias dispatches again, by name, at
  call time. Redefinition is allowed, so the alias graph can contain a
  cycle. A `fuel` argument stands for Ruby's stack depth, and running out
  of it is the `SystemStackError`.
- `Registry` (`registry.dfy`) is the class-level state. `ValidationClass`
  has the alias list (`aliases`, the source's `@aliases`) and the method
  table. `define`, `define_by_block`, `define_by_value` and `define_for`
  are methods that update that state. The `inherited` hook is the
  constructor `Derive`, which copies the parent's list one name at a time.
  The seeding at class load is the constructor `Base`. `RESERVED` is the
  constant `Reserved`.

Two behaviours of the code are easy to misread, and the model follows the code in both.

- `defaults` is `Hash#merge`, so the argument's keys overwrite existing
  ones. The test at test/named_validations_test.rb:91-92 expects this. It
  is not a fill of missing keys only.
- The alias list is not kept free of duplicates. A successful `define`
  appends the name even when the name is already listed.

## Model

| member | source | states |
|---|---|---|
| `Merge.DeepMergeInternal` | lib/named_validations.rb:112-123 | the result's names are the receiver's plus `v`, and every other name keeps its value; when `params` or the current value is not a Hash (including an absent name), `v` maps to `params` verbatim; when both are Hashes, `v` maps to a Hash whose keys are the union, where `params`' keys take `params`' values and the other keys keep the current ones |
| `Merge.DeepMerge` | lib/named_validations.rb:105-108 | adds `v` to the names and leaves every other name's value unchanged, whatever the options |
| `Merge.MergeOptions` | lib/named_validations.rb:107 | folding the options changes no name and no value except the one under `v` |
| `Merge.Defaults` | lib/named_validations.rb:84 | the names are the union, every key of the argument takes the argument's value even if present, and every other key is kept |
| `Merge.InjectMergeIsHashMerge` | lib/named_validations.rb:117-119 | the one-key-at-a-time `inject` over any enumeration of `params`' entries equals `Hash#merge(params)`, so the entry order does not matter |
| `Merge.DeepMergeWithoutOptions` | lib/named_validations.rb:105-108 | with no options, `deep_merge` is one `deep_merge_internal` step |
| `Merge.MergeOptionsSnoc` | lib/named_validations.rb:107 | folding one more option is one more `deep_merge_internal` step applied to the fold so far |
| `Merge.DeepMergeFoldsLeft` | lib/named_validations.rb:105-108 | `deep_merge(v, p, o1, …, on)` is `deep_merge_internal` with `on` applied to `deep_merge(v, p, o1, …, on-1)`: options fold left to right |
| `Merge.TrailingScalarReplaces` | lib/named_validations.rb:105-115 | a trailing non-Hash option leaves exactly that option under `v`, whatever came before |
| `Merge.TrailingHashOverlays` | lib/named_validations.rb:105-119 | a trailing Hash option is laid over the Hash the earlier arguments built |
| `Merge.DeepMergeIsLocal` | lib/named_validations.rb:105-123 | the value `deep_merge` leaves under `v` depends on the receiver only through its value under `v` |
| `Merge.NestedHashesAreReplaced` | lib/named_validations.rb:116-119 | the overlay goes one level deep only: a nested Hash in `params` replaces the nested Hash under the same key |
| `Merge.NestingExample` | test/named_validations_test.rb:56-58 | `{if: false}` then the option `{if: true, allow_blank: true}` gives `acceptance: {if: true, allow_blank: true}` |
| `Merge.OverlayChainExample` | test/named_validations_test.rb:183-189 | `other_opts1.other_opts2` gives `{if: true, unless: true}`, and a further `other_opts1` gives `{if: false, unless: true}` |
| `Merge.DefaultsReplacesNestedHash` | test/named_validations_test.rb:91-92 | `defaults` replaces a nested Hash wholesale where `deep_merge_internal` would overlay it |
| `Merge.DefaultsIdempotent` | lib/named_validations.rb:84 | applying the same defaults twice is the same as applying them once |
| `Dispatch.Invoke` | lib/named_validations.rb:56-84 | a call succeeds only for a name with an alias method, and a successful call never drops a validation name; an unknown name is `NoMethod` |
| `Dispatch.InvokeDefaults` | lib/named_validations.rb:84 | `defaults` called with one Hash is `Hash#merge` of it; any other argument count is an arity error, and a non-Hash argument is `NotAHash` (the `TypeError` of `merge`) |
| `Dispatch.InvokeBuiltin` | lib/named_validations.rb:65-67 | a built-in alias called with `arg, *opts` is `deep_merge(name, arg, *opts)`; called with no argument it is an arity error |
| `Dispatch.ValueAliasOfBuiltin` | lib/named_validations.rb:52-58 | a value alias of a built-in, called with `*opts`, is `deep_merge(target, params, *opts)` |
| `Dispatch.ValueAliasOfValueAlias` | lib/named_validations.rb:56 | a value alias of a value alias puts the inner alias's parameters first, then the outer alias's parameters, then the caller's options |
| `Dispatch.InvokeFuelMonotone` | lib/named_validations.rb:56 | a call that does not overflow gives the same result with any larger stack |
| `Dispatch.RankedNeverOverflows` | lib/named_validations.rb:52-56 | in an alias table without cycles, a call never overflows once the stack is deeper than the alias's rank |
| `Dispatch.MutualAliasesOverflow` | lib/named_validations.rb:46-56 | two value aliases that target each other overflow at every stack depth |
| `Registry.ValidationClass.Base` | lib/named_validations.rb:70-84 | the base class's list is exactly the 12 built-ins in call order, then `defaults`; each built-in name maps to its built-in method and `defaults` maps to the `defaults` method |
| `Registry.ValidationClass.Derive` | lib/named_validations.rb:41-44 | a subclass's list starts equal to the parent's list at derivation time |
| `Registry.ValidationClass.Define` | lib/named_validations.rb:25-31 | fails exactly for a reserved name or for a value alias whose target is not listed, and a failure changes nothing; on success it returns the name, appends exactly that name, and installs the method |
| `Registry.ValidationClass.DefineByBlock` | lib/named_validations.rb:46-50 | installs the method and appends the name without a duplicate check, then returns the name |
| `Registry.ValidationClass.DefineByValue` | lib/named_validations.rb:52-58 | rejects a target that is not listed and changes nothing in that case; otherwise it installs a value alias and appends the name |
| `Registry.ValidationClass.DefineFor` | lib/named_validations.rb:65-67 | defines a built-in alias on its own name, refused only for a reserved name |
| `Registry.DerivedListsAreCopies` | test/named_validations_test.rb:99-110 | a definition on a subclass appears only in the subclass's list, and a later definition on the parent appears only in the parent's list; the base list stays the 13 seeded names |
| `Registry.RedefinitionCanLoop` | lib/named_validations.rb:46-56 | redefining `presence` as a value alias of an alias that targets `presence` is accepted and lists `presence` twice, after which a call to `presence` overflows |

## Left out

- `inspect` (lib/named_validations.rb:94-99) is not modelled. It formats Ruby object ids and class names, which are runtime identity.
- `extractable_options?` (lib/named_validations.rb:89-91) is not modelled. It is the constant `true` and exists only for ActiveSupport.
- Block aliases with arbitrary Ruby blocks are not modelled. The tests' `block1`, `reset` and `arg2` are examples. A block is one of the three shapes in `Dispatch.AliasDef`.
- Live method inheritance is not modelled. In Ruby, a subclass also responds to aliases its parent defines after the derivation. `Derive` copies the parent's method table as a snapshot, like the list.
- Exception messages are not modelled. An error is a constructor of `DefineError` or `CallError`. The message at lib/named_validations.rb:54 names the new alias, not the unknown target, and that wording is not represented.
- Hash insertion order is not modelled. Dafny maps are unordered, and the tests compare Hashes without regard to order.
- Registry.ValidationClass.Define: a call with neither a spec nor a block is not modelled. Ruby's `define_method` raises for that call. `define(name, validation)` without parameters is `ByValue(validation, Scalar(Nil))`. Extra spec elements are ignored by the source and have no counterpart.
- Registry.ValidationClass.Base: the twelve `define_for` calls are a loop over `BuiltinNames`. The loop makes the same calls in the same order.
- Dispatch.Invoke: `fuel` stands for Ruby's stack limit. Its exact depth is not modelled.
- Dispatch.Invoke: every non-Hash argument to `defaults` gives `NotAHash`. Objects that convert with `to_hash` are not modelled.
- Sharing between the receiver and the result is not modelled. Ruby's `merge` (lib/named_validations.rb:118, 122) copies only the top level, so the result shares every nested Hash it did not replace with the receiver. When `params` is an empty Hash and the current value is a Hash, the `inject` at line 117 returns the current Hash itself. Dafny values cannot alias, so changing a nested Hash of the result in place, and the change showing up in the receiver, has no counterpart.
- Keys of nested Hashes are strings, standing for Ruby symbols. Parameters other than Hashes are opaque atoms.
