/** Resource records of crates/adns-wire/src/codec.rs, as far as signing and
    resolution look into them. */
module Records {
  import opened Basics
  import opened Names

  type RType = int

  const TYPE_A := 1
  const TYPE_NS := 2
  const TYPE_CNAME := 5
  const TYPE_SOA := 6
  const TYPE_AAAA := 28
  const TYPE_OPT := 41
  const TYPE_DS := 43
  const TYPE_RRSIG := 46
  const TYPE_NSEC := 47
  const TYPE_DNSKEY := 48
  const TYPE_NSEC3 := 50
  const TYPE_NSEC3PARAM := 51
  const TYPE_TSIG := 250
  const TYPE_IXFR := 251
  const TYPE_AXFR := 252
  const TYPE_ANY := 255
  const CLASS_IN := 1
  const ALGORITHM := 14

  datatype Error =
    | Wire | Crypto | InvalidRrset | InvalidSignature | InvalidValidity
    | InvalidNsec3Parameters | InvalidZone | NoProof | HashCollision

  datatype Result<+T> = Ok(value: T) | Err(error: Error) {
    predicate IsFailure() { Err? }
    function PropagateFailure<U>(): Result<U>
      requires Err?
    {
      Err(error)
    }
    function Extract(): T
      requires Ok?
    {
      value
    }
  }

  datatype Sig = Sig(
    typeCovered: RType, algorithm: int, labels: int, originalTtl: int,
    expiration: int, inception: int, keyTag: int, signer: Name, signature: Octets)

  /** `Other` stands for the typed records whose content is only ever copied:
      A, AAAA, PTR, MX, TXT, DS, TLSA, SVCB, CAA and OPT. A type bitmap is the
      set of types its ordered list names. */
  datatype RData =
    | Soa(mname: Name, rname: Name, serial: int, refresh: int, retry: int, expire: int, minimum: int)
    | Ns(target: Name)
    | Cname(alias: Name)
    | Dnskey(keyFlags: int, protocol: int, keyAlgorithm: int, publicKey: Octets)
    | Rrsig(sig: Sig)
    | Nsec(nextName: Name, types: set<RType>)
    | Nsec3(hashAlgorithm: int, flags: int, iterations: int, salt: Octets, nextHash: Octets, types: set<RType>)
    | Nsec3Param(hashAlgorithm: int, flags: int, iterations: int, salt: Octets)
    | Other(rtype: RType, octets: Octets)
    | Unknown(octets: Octets)

  const OTHER_TYPES: set<RType> := {TYPE_A, 12, 15, 16, TYPE_AAAA, TYPE_OPT, TYPE_DS, 52, 64, 257}

  /** `record_type`: opaque data has no type of its own. */
  function TypeOf(d: RData): Option<RType> {
    match d
    case Soa(_, _, _, _, _, _, _) => Some(TYPE_SOA)
    case Ns(_) => Some(TYPE_NS)
    case Cname(_) => Some(TYPE_CNAME)
    case Dnskey(_, _, _, _) => Some(TYPE_DNSKEY)
    case Rrsig(_) => Some(TYPE_RRSIG)
    case Nsec(_, _) => Some(TYPE_NSEC)
    case Nsec3(_, _, _, _, _, _) => Some(TYPE_NSEC3)
    case Nsec3Param(_, _, _, _) => Some(TYPE_NSEC3PARAM)
    case Other(t, _) => if t in OTHER_TYPES then Some(t) else None
    case Unknown(_) => None
  }

  datatype RR = RR(name: Name, rclass: int, rtype: RType, ttl: int, rdata: RData)

  /** `ResourceRecord::new` on typed data. */
  function NewRecord(name: Name, ttl: int, d: RData): RR
    requires TypeOf(d).Some?
  {
    RR(name, CLASS_IN, TypeOf(d).value, ttl, d)
  }

  type Key = int

  /** Library code and cryptography: the SHA-1 based NSEC3 digest, the RDATA
      codec, ECDSA signing (which may fail) and a key's public point and tag. */
  datatype Env = Env(
    digest: (Name, int, Octets) -> Octets,
    wire: RData -> Option<Octets>,
    sign: (Key, Octets) -> Option<Octets>,
    publicKey: Key -> Octets,
    keyTag: (Key, int) -> Option<int>)
}
