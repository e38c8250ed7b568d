/**
 * Share links (storage.js, generateShareableLink and loadFromShareableLink):
 * the project is wrapped in the envelope, serialized and base64-encoded into
 * the `#share=` fragment of the page's URL, and read back from it.
 */
module Share {
  import opened Wrappers
  import opened Json
  import opened Project

  const Marker := "#share="
  /** The longest encoded payload a link may carry. */
  const MaxEncodedLength := 2000

  /**
   * generateShareableLink. `encode` stands for `btoa(JSON.stringify(x))`,
   * `None` when `btoa` throws (a character outside Latin-1); `base` is the
   * page's origin and path. `None` is the `null` returned on an error.
   */
  function ShareLink(project: Value, base: string, encode: Value -> Option<string>): (link: Option<string>)
    ensures link.Some? <==> encode(CompressData(project)).Some? && |encode(CompressData(project)).value| <= MaxEncodedLength
    ensures link.Some? ==> link.value == base + Marker + encode(CompressData(project)).value
    ensures link.Some? ==> |link.value| <= |base| + |Marker| + MaxEncodedLength
  {
    match encode(CompressData(project))
    case None => None
    case Some(encoded) =>
      if |encoded| > MaxEncodedLength then None
      else Some(base + Marker + encoded)
  }

  /** `location.hash` of a URL: from its first `#` on, empty when there is none or nothing follows it. */
  function Fragment(url: string): (hash: string)
    ensures hash == "" || hash[0] == '#'
    ensures '#' !in url ==> hash == ""
    decreases |url|
  {
    if |url| == 0 then ""
    else if url[0] == '#' then (if |url| == 1 then "" else url)
    else Fragment(url[1..])
  }

  predicate HasMarker(hash: string) {
    |hash| >= |Marker| && hash[..|Marker|] == Marker
  }

  /**
   * loadFromShareableLink. `decode` stands for `JSON.parse(atob(s))`,
   * `None` when either throws. Reading `_compressed` of a decoded `null`
   * throws as well; every error, and a fragment without the marker, gives
   * `None`.
   */
  function LoadFromLink(hash: string, decode: string -> Option<Value>): (r: Option<Value>)
    ensures !HasMarker(hash) ==> r.None?
    ensures r.Some? ==> decode(hash[|Marker|..]).Some? && !Nullish(decode(hash[|Marker|..]).value)
    ensures r.Some? ==> r.value == DecompressData(decode(hash[|Marker|..]).value)
    ensures HasMarker(hash) && decode(hash[|Marker|..]).Some? && !Nullish(decode(hash[|Marker|..]).value) ==>
      r == Some(DecompressData(decode(hash[|Marker|..]).value))
  {
    if !HasMarker(hash) then None
    else match decode(hash[|Marker|..])
      case None => None
      case Some(data) => if Nullish(data) then None else Some(DecompressData(data))
  }

  lemma {:induction false} FragmentAfterBase(base: string, rest: string)
    requires '#' !in base && |rest| > 1 && rest[0] == '#'
    ensures Fragment(base + rest) == rest
    decreases |base|
  {
    if |base| > 0 {
      assert (base + rest)[1..] == base[1..] + rest;
      FragmentAfterBase(base[1..], rest);
    } else {
      assert base + rest == rest;
    }
  }

  /**
   * A link opened on the page loads the shared project back, provided
   * decoding inverts encoding on the envelope and the page URL carries no
   * fragment of its own.
   */
  lemma ShareRoundTrip(project: Value, base: string, encode: Value -> Option<string>, decode: string -> Option<Value>)
    requires '#' !in base
    requires ShareLink(project, base, encode).Some?
    requires decode(encode(CompressData(project)).value) == Some(CompressData(project))
    ensures LoadFromLink(Fragment(ShareLink(project, base, encode).value), decode) == Some(project)
  {
    var encoded := encode(CompressData(project)).value;
    FragmentAfterBase(base, Marker + encoded);
    assert base + Marker + encoded == base + (Marker + encoded);
    assert (Marker + encoded)[|Marker|..] == encoded;
    assert (Marker + encoded)[..|Marker|] == Marker;
    DecompressCompress(project);
  }
}
