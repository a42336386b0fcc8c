/**
 * The rewrite of IPFS addresses to the w3s.link gateway that the NFT helpers and components
 * share: `ipfs://<cid>/<path>` is fetched as `https://<cid>.ipfs.w3s.link/<path>`.
 */
module IpfsGateway {
  import opened Wrappers
  import opened JsString

  const Scheme: string := "ipfs://"
  const Https: string := "https://"
  const GatewayHost: string := ".ipfs.w3s.link/"

  /** `tokenURI && tokenURI.startsWith("ipfs://")`. */
  predicate IsIpfsUri(uri: string) {
    uri != "" && StartsWith(uri, Scheme)
  }

  /** `uri.replace("ipfs://", "")`: the first occurrence of the scheme, wherever it is, is removed. */
  function CidAndPath(uri: string): string {
    RemoveFirst(uri, Scheme)
  }

  /** `const [cid, ...path] = cidAndPath.split("/")`: the first segment. */
  function Cid(cidAndPath: string): string {
    Split(cidAndPath, '/')[0]
  }

  /** The remaining segments joined again with "/". */
  function Path(cidAndPath: string): string {
    Join(Split(cidAndPath, '/')[1..], '/')
  }

  /** `https://${cid}.ipfs.w3s.link/${path.join("/")}`. */
  function GatewayUrl(cidAndPath: string): string {
    Https + Cid(cidAndPath) + GatewayHost + Path(cidAndPath)
  }

  /** For a token URI the scheme removed is its prefix: what is left is everything after "ipfs://". */
  lemma {:induction false} TokenCidAndPath(uri: string)
    requires IsIpfsUri(uri)
    ensures |uri| >= |Scheme| && CidAndPath(uri) == uri[|Scheme|..]
  {
    RemoveFirstOfPrefix(uri, Scheme);
  }

  /**
   * The cid is the text before the first "/", and the path is the text after it, verbatim;
   * without a "/" the whole text is the cid and the path is empty.
   */
  lemma {:induction false} CidAndPathParts(s: string)
    ensures '/' !in Cid(s)
    ensures '/' in s ==> exists i :: 0 <= i < |s| && s[i] == '/' && Cid(s) == s[..i] && Path(s) == s[i + 1..]
    ensures '/' !in s ==> Cid(s) == s && Path(s) == ""
  {
    SplitHeadRest(s, '/');
    match IndexOf(s, ['/'])
    case None =>
      IndexOfNoneHasNoChar(s, '/');
    case Some(i) =>
      IndexOfSomeFirstChar(s, '/', i);
  }

  /** Cid, "/" and path put together again give back the text, when it has a "/". */
  lemma {:induction false} CidAndPathRejoin(s: string)
    requires '/' in s
    ensures Cid(s) + "/" + Path(s) == s
  {
    CidAndPathParts(s);
    var i :| 0 <= i < |s| && s[i] == '/' && Cid(s) == s[..i] && Path(s) == s[i + 1..];
    assert s == s[..i] + "/" + s[i + 1..];
  }

  /** The gateway URL starts with "https://", and the host suffix follows the cid. */
  lemma {:induction false} GatewayUrlShape(s: string)
    ensures var url := GatewayUrl(s);
      StartsWith(url, Https) && OccursAt(url, GatewayHost, |Https| + |Cid(s)|) &&
      url[|Https|..|Https| + |Cid(s)|] == Cid(s) && url[|Https| + |Cid(s)| + |GatewayHost|..] == Path(s)
  {
    var url := GatewayUrl(s);
    var c := Cid(s);
    assert url == Https + c + GatewayHost + Path(s);
    assert url[|Https| + |c|..|Https| + |c| + |GatewayHost|] == GatewayHost;
  }

  /**
   * Two texts that both contain a "/" are sent to the same URL only when they are equal: the
   * rewrite loses nothing once the cid is followed by a path.
   */
  lemma {:induction false} GatewayUrlInjective(a: string, b: string)
    requires '/' in a && '/' in b
    requires GatewayUrl(a) == GatewayUrl(b)
    ensures a == b
  {
    CidAndPathParts(a);
    CidAndPathParts(b);
    HostSplitsUniquely(Cid(a), Path(a), Cid(b), Path(b));
    CidAndPathRejoin(a);
    CidAndPathRejoin(b);
  }

  /** A cid without "/" is recovered from the URL: the host suffix is the first "/" after it. */
  lemma {:induction false} HostSplitsUniquely(ca: string, pa: string, cb: string, pb: string)
    requires '/' !in ca && '/' !in cb
    requires Https + ca + GatewayHost + pa == Https + cb + GatewayHost + pb
    ensures ca == cb && pa == pb
  {
    FirstSlashAfterCid(ca, pa);
    FirstSlashAfterCid(cb, pb);
    var url := Https + ca + GatewayHost + pa;
    assert url[|Https|..|Https| + |ca|] == ca;
    assert (Https + cb + GatewayHost + pb)[|Https|..|Https| + |cb|] == cb;
    assert url[|Https| + |ca| + |GatewayHost|..] == pa;
    assert (Https + cb + GatewayHost + pb)[|Https| + |cb| + |GatewayHost|..] == pb;
  }

  /** After "https://", the first "/" of a gateway URL is the last character of the host suffix. */
  lemma {:induction false} FirstSlashAfterCid(c: string, p: string)
    requires '/' !in c
    ensures IndexOfFrom(Https + c + GatewayHost + p, "/", |Https|)
      == Some(|Https| + |c| + |GatewayHost| - 1)
  {
    var url := Https + c + GatewayHost + p;
    var k := |Https| + |c| + |GatewayHost| - 1;
    assert url[k..k + 1] == "/";
    assert OccursAt(url, "/", k);
    forall j | |Https| <= j < k
      ensures !OccursAt(url, "/", j)
    {
      if j < |Https| + |c| {
        assert url[j] == c[j - |Https|];
      } else {
        assert url[j] == GatewayHost[j - |Https| - |c|];
      }
      assert url[j..j + 1] == [url[j]];
    }
  }

  /** A cid with no path and the same cid followed by a lone "/" are sent to the same URL. */
  lemma {:induction false} TrailingSlashSameUrl(cid: string)
    requires '/' !in cid
    ensures GatewayUrl(cid) == GatewayUrl(cid + "/")
  {
    IndexOfCharAbsent(cid, '/');
    SplitHeadRest(cid, '/');
    IndexOfCharAfter(cid, '/', "");
    assert cid + ['/'] + "" == cid + "/";
    SplitHeadRest(cid + "/", '/');
    assert (cid + "/")[..|cid|] == cid;
  }

  /** The cid is empty exactly when the text is empty or starts with "/". */
  lemma {:induction false} CidEmpty(s: string)
    ensures Cid(s) == "" <==> s == "" || s[0] == '/'
  {
    if s != [] && s[0] == '/' {
      assert StartsWith(s, "/");
      IndexOfPrefix(s, "/");
      SplitHeadRest(s, '/');
    } else {
      CidAndPathParts(s);
    }
  }

  /**
   * The URL a token URI's metadata is fetched from: none when the URI is not an IPFS URI or
   * its cid is empty.
   */
  function RequestUrl(uri: string): Option<string> {
    if !IsIpfsUri(uri) then None
    else
      var cidAndPath := CidAndPath(uri);
      if Cid(cidAndPath) == "" then None else Some(GatewayUrl(cidAndPath))
  }

  /** `<cid>/<path>` becomes `https://<cid>.ipfs.w3s.link/<path>`, the path kept verbatim. */
  lemma {:induction false} GatewayUrlOfParts(cid: string, path: string)
    requires '/' !in cid
    ensures Cid(cid + "/" + path) == cid && Path(cid + "/" + path) == path
    ensures GatewayUrl(cid + "/" + path) == Https + cid + GatewayHost + path
  {
    var s := cid + "/" + path;
    IndexOfCharAfter(cid, '/', path);
    assert cid + ['/'] + path == s;
    SplitHeadRest(s, '/');
    assert s[..|cid|] == cid;
    assert s[|cid| + 1..] == path;
  }

  /** `ipfs://<cid>/<path>` is fetched from `https://<cid>.ipfs.w3s.link/<path>`. */
  lemma {:induction false} RequestUrlWithPath(cid: string, path: string)
    requires '/' !in cid && cid != ""
    ensures RequestUrl(Scheme + cid + "/" + path) == Some(Https + cid + GatewayHost + path)
  {
    var uri := Scheme + cid + "/" + path;
    assert StartsWith(uri, Scheme) && uri[|Scheme|..] == cid + "/" + path;
    TokenCidAndPath(uri);
    GatewayUrlOfParts(cid, path);
  }

  /** `ipfs://<cid>` is fetched from `https://<cid>.ipfs.w3s.link/`. */
  lemma {:induction false} RequestUrlWithoutPath(cid: string)
    requires '/' !in cid && cid != ""
    ensures RequestUrl(Scheme + cid) == Some(Https + cid + GatewayHost)
  {
    var uri := Scheme + cid;
    assert StartsWith(uri, Scheme) && uri[|Scheme|..] == cid;
    TokenCidAndPath(uri);
    CidAndPathParts(cid);
    assert Https + cid + GatewayHost + "" == Https + cid + GatewayHost;
  }

  /** `ipfs:///<path>` has an empty cid and is not fetched; neither is a URI of another scheme. */
  lemma {:induction false} RequestUrlNone(path: string, uri: string)
    requires !IsIpfsUri(uri)
    ensures RequestUrl(Scheme + "/" + path) == None
    ensures RequestUrl(uri) == None
  {
    var empty := Scheme + "/" + path;
    assert StartsWith(empty, Scheme) && empty[|Scheme|..] == "/" + path;
    TokenCidAndPath(empty);
    CidEmpty("/" + path);
  }

  /**
   * `image.replace("ipfs://", "")` split and rewritten like a token URI: the rewrite applied to an
   * image address, whatever its form.
   */
  function ImageGatewayUrl(image: string): string {
    GatewayUrl(RemoveFirst(image, Scheme))
  }

  /** An "ipfs://" image address is rewritten like a token URI. */
  lemma {:induction false} ImageUrlOfIpfs(image: string)
    requires StartsWith(image, Scheme)
    ensures ImageGatewayUrl(image) == GatewayUrl(image[|Scheme|..])
  {
    RemoveFirstOfPrefix(image, Scheme);
  }

  /** An image address without "ipfs://" is still wrapped: its text up to the first "/" becomes the host. */
  lemma {:induction false} ImageUrlWithoutScheme(image: string)
    requires IndexOf(image, Scheme).None?
    ensures ImageGatewayUrl(image) == GatewayUrl(image)
  {
  }

  /** The rewritten image address is never empty: it starts with "https://" and holds the host suffix. */
  lemma {:induction false} ImageUrlShape(image: string)
    ensures var url := ImageGatewayUrl(image);
      url != "" && StartsWith(url, Https) && exists k :: OccursAt(url, GatewayHost, k)
  {
    GatewayUrlShape(RemoveFirst(image, Scheme));
  }
}
