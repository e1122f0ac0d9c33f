/** `Ice.ProxyIdentityKey`: a proxy wrapped so that hashed collections
  * compare it by its object identity alone. The identity and its hash are
  * taken once, when the key is made. */
module IceProxyIdentityKey {
  import opened Basics
  import opened JavaText
  import opened IceReference
  import IceProxyFactory

  /** The hash of an identity: its name's hash, then `5 * h` plus its
    * category's hash, in 32-bit arithmetic. */
  function IdentityHash(id: Identity): int32
  {
    Wrap32(5 * StringHash(id.name) + StringHash(id.category))
  }

  datatype ProxyIdentityKey = ProxyIdentityKey(proxy: IceProxyFactory.ObjectProxy, identity: Identity, hashCode: int32)

  /** The constructor: the proxy, its identity and the identity's hash. */
  function MakeKey(proxy: IceProxyFactory.ObjectProxy): (k: ProxyIdentityKey)
    ensures k.proxy == proxy
    ensures k.identity == proxy.reference.identity
    ensures k.hashCode == IdentityHash(proxy.reference.identity)
  {
    ProxyIdentityKey(proxy, proxy.reference.identity, IdentityHash(proxy.reference.identity))
  }

  /** `hashCode`: the hash cached at construction. */
  function HashCode(k: ProxyIdentityKey): int32
  {
    k.hashCode
  }

  /** `equals`: the cached hashes agree and the identities are equal. */
  predicate KeyEquals(a: ProxyIdentityKey, b: ProxyIdentityKey)
  {
    a.hashCode == b.hashCode && a.identity == b.identity
  }

  /** `getProxy`: the wrapped proxy, unchanged. */
  function GetProxy(k: ProxyIdentityKey): (p: IceProxyFactory.ObjectProxy)
    ensures p == k.proxy
  {
    k.proxy
  }

  /** Keys made from two proxies are equal exactly when the proxies have
    * the same identity, whatever else (mode, facet, endpoints, context)
    * tells the proxies apart; equal keys hash alike; and the key gives
    * back the proxy it was made from. */
  lemma KeyEqualsIffSameIdentity(p: IceProxyFactory.ObjectProxy, q: IceProxyFactory.ObjectProxy)
    ensures KeyEquals(MakeKey(p), MakeKey(q)) <==> p.reference.identity == q.reference.identity
    ensures KeyEquals(MakeKey(p), MakeKey(q)) ==> HashCode(MakeKey(p)) == HashCode(MakeKey(q))
    ensures GetProxy(MakeKey(p)) == p
  {
  }

  /** On keys made by the constructor, `equals` is an equivalence. */
  lemma KeyEqualsIsEquivalence(p: IceProxyFactory.ObjectProxy, q: IceProxyFactory.ObjectProxy,
                               r: IceProxyFactory.ObjectProxy)
    ensures KeyEquals(MakeKey(p), MakeKey(p))
    ensures KeyEquals(MakeKey(p), MakeKey(q)) ==> KeyEquals(MakeKey(q), MakeKey(p))
    ensures KeyEquals(MakeKey(p), MakeKey(q)) && KeyEquals(MakeKey(q), MakeKey(r)) ==>
              KeyEquals(MakeKey(p), MakeKey(r))
  {
  }

  /** Changing anything but the identity of the proxy's reference leaves
    * the key's hash and equality unchanged. */
  lemma KeyIgnoresAllButIdentity(p: IceProxyFactory.ObjectProxy, r: Reference)
    requires r.identity == p.reference.identity
    ensures KeyEquals(MakeKey(p), MakeKey(IceProxyFactory.ObjectProxy(r)))
    ensures HashCode(MakeKey(IceProxyFactory.ObjectProxy(r))) == HashCode(MakeKey(p))
  {
  }
}
