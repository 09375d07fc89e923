/** The data a validation mapping holds.

    A `NamedValidations` instance is a Ruby Hash from validation name to
    parameter; a parameter is either a plain object (true, 'foo', 1, ...) or
    itself a Hash of options. Only the Hash/non-Hash distinction matters to
    the merge rules, so every other object is an opaque `Atom`.
 */
module Values {

  /** Validation names and the keys of nested option hashes are Ruby symbols. */
  type Name = string
  type Key = string

  /** The non-Hash objects that appear as parameters. */
  datatype Atom = Nil | Bool(b: bool) | Int(i: int) | Str(s: string) | Sym(sym: string)

  /** A parameter: `Dict?` plays the part of `is_a?(Hash)`. */
  datatype Value = Scalar(atom: Atom) | Dict(entries: map<Key, Value>)

  /** The contents of a `NamedValidations` instance. */
  type Mapping = map<Name, Value>

  datatype Result<T, E> = Ok(value: T) | Err(error: E)
}
