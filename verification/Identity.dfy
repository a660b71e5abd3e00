/** Identities: a UUID is the number its text spells, so letter case is folded away. */
module Identity {

  type Id = nat

  const NIL: Id := 0
}
