/** The records and the environment of the OpenSRS XCP client (src/opensrs/types.rs). */
module Types {
  import opened Wrappers

  /** Rust's `u32` and `u8`. */
  const U32_LIMIT: nat := 0x1_0000_0000
  const U8_LIMIT: nat := 0x100
  type U32 = n: nat | n < 0x1_0000_0000
  type U8 = n: nat | n < 0x100

  /** The two OpenSRS API environments. */
  datatype Environment = Test | Production

  /** The API endpoint URL of an environment: an https URL of a host under
      opensrs.net, on port 55443, with a non-empty subdomain in between. */
  function Endpoint(env: Environment): (url: string)
    ensures |"https://"| + |"opensrs.net:55443"| < |url|
    ensures url[..8] == "https://" && url[|url| - 17..] == "opensrs.net:55443"
  {
    match env
    case Production => "https://rr-n1-tor.opensrs.net:55443"
    case Test => "https://horizon.opensrs.net:55443"
  }

  /** The two environments never share an endpoint. */
  lemma EndpointInjective(a: Environment, b: Environment)
    ensures Endpoint(a) == Endpoint(b) <==> a == b
  {
    if a != b {
      assert |Endpoint(a)| != |Endpoint(b)|;
    }
  }

  /** Configuration of the client. */
  datatype ClientConfig = ClientConfig(username: string, credential: string, environment: Environment)

  /** Attributes of a GET_DOMAINS_BY_EXPIREDATE request. */
  datatype RequestAttrs = RequestAttrs(expFrom: string, expTo: string, limit: Option<U32>, page: Option<U32>)

  /** A GET_DOMAINS_BY_EXPIREDATE request. */
  datatype Request = Request(protocol: string, obj: string, action: string, attributes: RequestAttrs)

  /** One domain of an expiration listing. */
  datatype ExpiringDomain = ExpiringDomain(name: string, expiredate: string, fAutoRenew: string, fLetExpire: string)

  /** Attributes of a GET_DOMAINS_BY_EXPIREDATE response. `remainder` is 0 when
      all results were returned and nonzero when more pages are available. */
  datatype ResponseAttrs = ResponseAttrs(page: U32, total: U32, remainder: U8, expDomains: seq<ExpiringDomain>) {
    predicate MorePages() { remainder != 0 }
  }

  /** A GET_DOMAINS_BY_EXPIREDATE response. */
  datatype Response = Response(isSuccess: bool, responseCode: string, responseText: string, attributes: ResponseAttrs)
}
