/**
 A predicate that is stated as `forall seal: Seal :: Q(seal, ...)` is unfolded only where a proof names `Q(Seal, ...)`.
 Proofs in which such a predicate is merely carried along stay small.
 */
module Seals {
  datatype Seal = Seal
}
