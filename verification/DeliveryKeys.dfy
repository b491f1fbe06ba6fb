/** The key under which the gateway remembers a delivery: the JSON text of binding and delivery id. */
module DeliveryKeys {
  import opened Json

  function IdentityKey(channelBindingId: string, deliveryId: string): string {
    Print(Arr([Str(channelBindingId), Str(deliveryId)]))
  }

  /** Two deliveries share a key only if they have the same binding and the same id. */
  lemma IdentityKeyIsExact(b: string, d: string, b': string, d': string)
    requires IdentityKey(b, d) == IdentityKey(b', d')
    ensures b == b' && d == d'
  {
    var x, y := [Str(b), Str(d)], [Str(b'), Str(d')];
    PrintIsInjective(Arr(x), Arr(y));
    assert x[0] == y[0] && x[1] == y[1];
  }
}
