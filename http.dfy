/** The part of an inbound net/http request the authorization core reads. */
module Http {

  /**
   * `header` maps canonical header names to their values, in order;
   * `requestURI` is the unmodified request target, query included.
   */
  datatype Request = Request(header: map<string, seq<string>>, requestURI: string)

  /** http.Header.Get: the first value under `key`, or "" when there is none. */
  function HeaderGet(header: map<string, seq<string>>, key: string): (v: string)
    ensures v == "" || (key in header && v in header[key])
    ensures key in header && header[key] != [] ==> v == header[key][0]
  {
    if key in header && header[key] != [] then header[key][0] else ""
  }
}
