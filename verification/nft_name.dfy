/**
 * The NFTName component: its `nftName` state, reset on every token URI change and then written
 * once by the metadata fetch that a one-second timer starts. The decision ladder is the one of
 * `fetchNFTName`; only the two fallback texts differ.
 */
module NftName {
  import opened IpfsGateway
  import opened NftMetadata
  import opened FetchNftName

  const Loading: string := "Loading..."
  const UnknownVehicle: string := "Unknown Vehicle"
  const ErrorLoadingVehicle: string := "Error loading vehicle"

  /** The text the component writes once its metadata fetch has finished. */
  function ComponentName(uri: string, fetch: string -> Fetched): Json {
    NameText(Resolve(uri, fetch), UnknownVehicle, ErrorLoadingVehicle)
  }

  /**
   * The component shows what `fetchNFTName` resolves to, except that a metadata without a name
   * reads "Unknown Vehicle" instead of "Unknown NFT", and a failure "Error loading vehicle"
   * instead of "Error loading NFT".
   */
  lemma {:induction false} ComponentMatchesHelper(uri: string, fetch: string -> Fetched)
    ensures var o := Resolve(uri, fetch);
      (o != Unnamed && o != Failed ==> ComponentName(uri, fetch) == FetchNFTName(uri, fetch)) &&
      (o == Unnamed ==> ComponentName(uri, fetch) == JString(UnknownVehicle) &&
                        FetchNFTName(uri, fetch) == JString("Unknown NFT")) &&
      (o == Failed ==> ComponentName(uri, fetch) == JString(ErrorLoadingVehicle) &&
                       FetchNFTName(uri, fetch) == JString("Error loading NFT"))
  {
  }

  /** A name can read "Loading...": a vehicle called that leaves the name pulsing after the fetch. */
  lemma {:induction false} LoadingLookalike(uri: string, fetch: string -> Fetched, status: nat)
    requires RequestUrl(uri).Some? && Ok(status)
    requires fetch(RequestUrl(uri).value) ==
      Response(status, Parsed(JObject(map["name" := JString(Loading)])))
    ensures ComponentName(uri, fetch) == JString(Loading)
  {
    NameWithoutVehicle(map["name" := JString(Loading)]);
  }

  /** The component's `nftName` state. */
  class NftNameView {
    var nftName: Json

    /** `useState("Loading...")`. */
    constructor()
      ensures nftName == JString(Loading)
    {
      nftName := JString(Loading);
    }

    /**
     * The effect on a token URI change: reset to "Loading...", then either settle on the waiting
     * text or schedule the fetch (the result says whether one was scheduled).
     */
    method UriChanged(uri: string) returns (scheduled: bool)
      modifies this
      ensures scheduled == IsIpfsUri(uri)
      ensures nftName == if scheduled then JString(Loading) else JString("Waiting for NFT data...")
    {
      nftName := JString(Loading);
      if !IsIpfsUri(uri) {
        nftName := JString("Waiting for NFT data...");
        scheduled := false;
      } else {
        scheduled := true;
      }
    }

    /** The scheduled fetch finishes: one write of the ladder's result. */
    method MetadataFetched(uri: string, fetch: string -> Fetched)
      requires IsIpfsUri(uri)
      modifies this
      ensures nftName == ComponentName(uri, fetch)
    {
      nftName := ComponentName(uri, fetch);
    }

    /** The `animate-pulse` class is applied exactly while the state reads "Loading...". */
    predicate Pulses()
      reads this
    {
      nftName == JString(Loading)
    }
  }
}
