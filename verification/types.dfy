/** The function-type aliases declared in types.go, as Dafny arrow types. */
module Types {

  /** A function from a value to a value of the same type (used by Pipe). */
  type ComposeFunc<!T> = T -> T

  /** A test on an element (used by Filter, Find and Every). */
  type PredicateFunc<-T> = T -> bool

  /** A transformation of an element into another type (used by Map). */
  type MapperFunc<-T, K> = T -> K
}
