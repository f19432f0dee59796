/**
 * The Python exceptions that the modelled code can raise. Each is raised
 * by the language itself rather than by the program: a dictionary or enum
 * lookup of a missing key, and indexing an empty list.
 */
module Exceptions {

  datatype PyError =
    | KeyError(key: string)  // `d[key]` or `Enum[key]` with `key` absent
    | IndexError             // `xs[0]` with `xs` empty
}
