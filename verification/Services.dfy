/** The services that a node offers, one flag a bit. */
module Services {

  function Union(a: bv64, b: bv64): bv64 {
    a | b
  }

  /** Whether one of the services in `flags` is offered. */
  predicate Offers(services: bv64, flags: bv64) {
    services & flags != 0
  }

  lemma FirstOffers(a: bv64, b: bv64, flags: bv64)
    requires Offers(a, flags)
    ensures Offers(Union(a, b), flags)
  {
  }

  lemma SecondOffers(a: bv64, b: bv64, flags: bv64)
    requires Offers(b, flags)
    ensures Offers(Union(a, b), flags)
  {
  }

  lemma NeitherOffers(a: bv64, b: bv64, flags: bv64)
    requires !Offers(a, flags) && !Offers(b, flags)
    ensures !Offers(Union(a, b), flags)
  {
  }

  /** A union offers exactly what one of its parts does. */
  lemma UnionOffers(a: bv64, b: bv64, flags: bv64)
    ensures Offers(Union(a, b), flags) <==> Offers(a, flags) || Offers(b, flags)
  {
    hide *;
    if Offers(a, flags) {
      FirstOffers(a, b, flags);
    } else if Offers(b, flags) {
      SecondOffers(a, b, flags);
    } else {
      NeitherOffers(a, b, flags);
    }
  }
}
