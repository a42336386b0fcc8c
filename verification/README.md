# Moove front end: withdraw page, NFT metadata helpers and auction widgets

This project models the parts of the Moove NFT-auction front end that make decisions rather than lay
out pages, and proves properties of them:

- the **withdraw page**: the amount field, its key-down filter, the change handler's validation
  ladder, the MAX button, the Withdraw button's `disabled` rule, the `parseEther` request it sends,
  and the success notice;
- the **NFT metadata helpers** `fetchNFTName` and `fetchNFTImage`: the `ipfs://` check, the rewrite
  to the `https://<cid>.ipfs.w3s.link/<path>` gateway, the HTTP/parse/structure checks and the name
  priority (first "Vehicle" attribute, then `name`);
- the **NFTName, NFTImage and UnsoldNFTImage components**, which repeat those ladders inline with
  their own texts, as objects whose state is reset on a token URI change and written once by the
  metadata fetch;
- the **countdown timer**: the split of the time left into days, hours, minutes and seconds, the
  tick that keeps the last values once the end has passed, and the two-digit padding;
- the **bid history table**: the loading/error/empty/table choice, the address shortening and the
  one-row-per-bid mapping with amounts in ether.

Amounts are unbounded naturals in wei. `parseFloat` and `Number` are modelled as exact decimals
(sign, mantissa, scale), and `>` between them as an exact comparison. viem's `formatEther` and
`parseEther` come from a library outside the repository, so the `Ether` module writes them out
following viem's published algorithm. Fetching is a parameter `fetch: string -> Fetched` giving
what the URL returns: a network error, or a status with a body that parses or does not. Timers and
effects become explicit events (methods) on the component objects.

Behaviour of the code worth knowing:

- An amount that reads as a number but has text after it ("1abc") passes validation when it is
  within a non-zero balance, and a negative one ("-5") passes whenever the balance is not zero.
  Against a zero balance both get "No funds to withdraw". See `PastedSuffixAccepted` and
  `PastedNegativeAccepted`.
- `parseEther` rounds digits beyond the 18th instead of rejecting them. See
  `TinyAmountRequestsNothing`.
- MAX does not run validation. It only fills in `formatEther(userBalance ?? 0n)`. Once a
  non-zero balance has been read, that text would pass. MAX is also enabled before the balance
  has been read; it then fills in "0", which would get "Amount must be greater than 0"
  (`MaxAmountValid`).

Modules: `Wrappers` (Option), `JsString` (the JavaScript string operations used), `Digits`
(decimal digit strings), `Ether`, `JsNumber`, `IpfsGateway`, `NftMetadata`, and one module per
core file: `WithdrawPage`, `FetchNftName`, `FetchNftImage`, `NftName`, `NftImage`,
`UnsoldNftImage`, `Countdown`, `BidHistory`.

## Model

| member | source | states |
|---|---|---|
| WithdrawPage.WithdrawForm.constructor | packages/nextjs/app/withdraw/page.tsx:14-16 | the page opens with an empty amount, no error and no success notice |
| WithdrawPage.WithdrawForm.Change | packages/nextjs/app/withdraw/page.tsx:34-67 | the stored amount is the input with a leading '.' prefixed by '0', the error is the ladder's verdict on it, and the notice is untouched |
| WithdrawPage.WithdrawForm.Type | packages/nextjs/app/withdraw/page.tsx:78-107 | a key is cancelled exactly for a second '.' or a key outside the allowed list; otherwise the browser's edit runs through the change handler; key presses keep the field digits with at most one '.' |
| WithdrawPage.WithdrawForm.Max | packages/nextjs/app/withdraw/page.tsx:20-22 | MAX fills in `formatEther(userBalance ?? 0n)`, a plain decimal that `parseEther` turns back into exactly that balance, and leaves the error as it was |
| WithdrawPage.WithdrawForm.Withdraw | packages/nextjs/app/withdraw/page.tsx:26-32 | the request is `parseEther` of the field; for a typed amount it is defined and between 0 and the balance |
| WithdrawPage.WithdrawForm.WriteSucceeded | packages/nextjs/app/withdraw/page.tsx:109-115 | a successful write empties the field, clears the error and shows the notice |
| WithdrawPage.WithdrawForm.NoticeExpired | packages/nextjs/app/withdraw/page.tsx:117-124 | the timer hides the notice and changes nothing else |
| WithdrawPage.Message | packages/nextjs/app/withdraw/page.tsx:55-63 | the five texts the page shows under the field; the one for an amount above the balance quotes the balance through `formatEther` and " ETH" |
| WithdrawPage.BalanceOf | packages/nextjs/app/withdraw/page.tsx:47 | `userBalance ?? 0n`: the balance read, or 0 wei before it returns |
| WithdrawPage.BalanceNumber | packages/nextjs/app/withdraw/page.tsx:47 | `Number(formatEther(userBalance ?? 0n))` as an exact decimal; BalanceNumberParts gives its value |
| WithdrawPage.Normalize | packages/nextjs/app/withdraw/page.tsx:37-39 | an amount starting with '.' gets a '0' in front, any other text is kept; NormalizeNumber and NormalizeTyped state what this changes |
| WithdrawPage.ChangeError | packages/nextjs/app/withdraw/page.tsx:52-66 | the change handler's ladder on the stored text, the connection and the balance; ChangeErrorReasons and ChangeErrorCleared characterise each outcome |
| WithdrawPage.WithdrawDisabled | packages/nextjs/app/withdraw/page.tsx:199-204 | the Withdraw button's `disabled` expression: an error, an empty field, no account, or an amount above the balance; DisabledMatchesError ties it to the ladder |
| WithdrawPage.MaxDisabled | packages/nextjs/app/withdraw/page.tsx:155 | MAX is disabled exactly when the balance read returned 0, and so not while it is still undefined |
| WithdrawPage.KeyPrevented | packages/nextjs/app/withdraw/page.tsx:99-106 | the key-down handler cancels a '.' when the field holds one and every key outside the fifteen allowed |
| WithdrawPage.KeyEdit | packages/nextjs/app/withdraw/page.tsx:81-97 | the browser's edit for a key let through: a one-character key replaces the selection, Backspace and Delete remove it or one neighbouring character, arrows change nothing; KeystrokeKeepsTyped states what this keeps |
| WithdrawPage.ChangeErrorReasons | packages/nextjs/app/withdraw/page.tsx:52-66 | each message is set exactly for its own reason in ladder order: connect wallet, invalid number, zero, no funds, above the balance (compared exactly in wei) |
| WithdrawPage.ChangeErrorCleared | packages/nextjs/app/withdraw/page.tsx:52-66 | the error is cleared exactly for an empty amount, or for a connected wallet, a non-zero number, a non-zero balance and an amount at most the balance |
| WithdrawPage.ChangeErrorNone | packages/nextjs/app/withdraw/page.tsx:64-66 | a non-zero number within a non-zero balance clears the error |
| WithdrawPage.DisabledMatchesError | packages/nextjs/app/withdraw/page.tsx:199-204 | right after a change, the Withdraw button is disabled exactly when a message shows or the field is empty |
| WithdrawPage.BalanceNumberParts | packages/nextjs/app/withdraw/page.tsx:47 | `Number(formatEther(balance))` is the exact decimal wei / 10^18 |
| WithdrawPage.FormattedNumberParts | packages/nextjs/app/withdraw/page.tsx:47 | `parseFloat` reads the text `formatUnits` prints as the digits' value over 10^18 |
| WithdrawPage.PrintedNumberParts | packages/nextjs/app/withdraw/page.tsx:47 | `parseFloat` of an integer part and short fraction is their value over 10^(length of the fraction) |
| WithdrawPage.BalanceIsZero | packages/nextjs/app/withdraw/page.tsx:60-61 | the page sees "no funds" exactly when the balance is 0 wei |
| WithdrawPage.ExceedsBalance | packages/nextjs/app/withdraw/page.tsx:62-63 | `amount > balance` holds exactly when amount * 10^18 > wei, and never for a negative amount |
| WithdrawPage.GreaterThanScaled | packages/nextjs/app/withdraw/page.tsx:62 | comparing with m / 10^s where m * 10^(18-s) = wei is comparing with wei / 10^18 |
| WithdrawPage.NormalizeNumber | packages/nextjs/app/withdraw/page.tsx:37-39 | the leading-'0' normalisation never changes the number read, except that a bare "." becomes 0 |
| WithdrawPage.TypedAmountParts | packages/nextjs/app/withdraw/page.tsx:81-106 | a key-typed amount is digits, then optionally '.' and digits, with the '.' where `indexOf` finds it |
| WithdrawPage.TypedAmountParses | packages/nextjs/app/withdraw/page.tsx:46 | a key-typed amount is a non-negative number and `parseEther` accepts it |
| WithdrawPage.NormalizeTyped | packages/nextjs/app/withdraw/page.tsx:37-39 | normalising digits with at most one '.' gives text that starts with a digit |
| WithdrawPage.SpliceChars | packages/nextjs/app/withdraw/page.tsx:81-97 | replacing a range by allowed characters keeps only allowed characters and adds no more '.' than inserted |
| WithdrawPage.KeystrokeKeepsTyped | packages/nextjs/app/withdraw/page.tsx:99-106 | every key press the handler lets through leaves digits with at most one '.', never a leading '.' |
| WithdrawPage.DeletedRange | packages/nextjs/app/withdraw/page.tsx:93-94 | Backspace and Delete remove one range of the text |
| WithdrawPage.DeleteTyped | packages/nextjs/app/withdraw/page.tsx:93-94 | deleting from a typed amount and normalising gives a typed amount |
| WithdrawPage.AllowedCharKey | packages/nextjs/app/withdraw/page.tsx:99-106 | a one-character key let through is a digit, or a '.' when the amount has none |
| WithdrawPage.SpliceTyped | packages/nextjs/app/withdraw/page.tsx:99-106 | inserting allowed characters without a second '.' keeps a typed amount |
| WithdrawPage.TypedAmountRounds | packages/nextjs/app/withdraw/page.tsx:30 | `parseEther` accepts a typed amount, is exact for at most 18 decimals, and its rounding never passes a bound the amount respects |
| WithdrawPage.DecimalAmountRounds | packages/nextjs/app/withdraw/page.tsx:30 | TypedAmountRounds for `integer.fraction` |
| WithdrawPage.WholeAmountRounds | packages/nextjs/app/withdraw/page.tsx:30 | a whole amount is requested as that many ether in wei |
| WithdrawPage.WithdrawWithinBalance | packages/nextjs/app/withdraw/page.tsx:199-204 | when the Withdraw button is enabled for a typed amount, the wei requested is between 0 and the balance |
| WithdrawPage.WithdrawExact | packages/nextjs/app/withdraw/page.tsx:30 | a non-zero typed amount with at most 18 decimals is requested exactly and is positive |
| WithdrawPage.MaxAmountParses | packages/nextjs/app/withdraw/page.tsx:20-22 | the MAX text is a typed amount that `parseEther` reads back as the balance |
| WithdrawPage.MaxAmountValid | packages/nextjs/app/withdraw/page.tsx:140-155 | while MAX is enabled, validating its text clears the error exactly when the balance has been read |
| WithdrawPage.PastedSuffixAccepted | packages/nextjs/app/withdraw/page.tsx:46 | digits followed by other text pass validation when within the balance, yet `parseEther` rejects that text |
| WithdrawPage.PastedSuffixRejected | packages/nextjs/app/withdraw/page.tsx:30 | `parseEther` rejects digits followed by non-digit text without '.' |
| WithdrawPage.PastedNegativeAccepted | packages/nextjs/app/withdraw/page.tsx:62 | a negative amount passes validation and `parseEther` turns it into a negative wei amount |
| WithdrawPage.NegativeNumber | packages/nextjs/app/withdraw/page.tsx:46 | `parseFloat` reads "-digits" as the negative whole number |
| WithdrawPage.NegativeWei | packages/nextjs/app/withdraw/page.tsx:30 | `parseEther` reads "-digits" as minus that many ether |
| WithdrawPage.TinyFractionDigits | packages/nextjs/app/withdraw/page.tsx:46 | k zeros and a '1' are digits denoting 1 |
| WithdrawPage.TinyNumber | packages/nextjs/app/withdraw/page.tsx:46 | `parseFloat` reads "0.0…01" as 1 / 10^(k+1) |
| WithdrawPage.OneOverNumber | packages/nextjs/app/withdraw/page.tsx:46 | "0." and a fraction denoting 1 reads as 1 / 10^(length of the fraction) |
| WithdrawPage.TinyJoinedValue | packages/nextjs/app/withdraw/page.tsx:46 | "0" followed by the tiny fraction denotes 1 |
| WithdrawPage.TinyAmountAccepted | packages/nextjs/app/withdraw/page.tsx:58-66 | an amount below one wei passes validation against any positive balance |
| WithdrawPage.TinyAmountRequestsNothing | packages/nextjs/app/withdraw/page.tsx:30 | `parseEther` rounds such an amount to a request for 0 wei |
| Ether.FormatUnits | packages/nextjs/app/withdraw/page.tsx:21 | viem's `formatUnits`: the value's digits padded to the decimals, split that many places from the right, trailing fraction zeros dropped; ParseFormatUnits and FormatUnitsIsPlain state its meaning |
| Ether.FormatEther | packages/nextjs/app/withdraw/page.tsx:21 | `formatUnits` with 18 decimals; ParseFormatEther inverts it |
| Ether.Magnitude | packages/nextjs/app/withdraw/page.tsx:30 | the units an integer part and a fraction denote at 18 places: exact up to 18 fraction digits, otherwise cut and rounded up on a 19th digit of 5 or more; TypedAmountRounds and TinyAmountRequestsNothing state the consequences |
| Ether.ParseFormatEther | packages/nextjs/app/withdraw/page.tsx:21 | `parseEther(formatEther(wei))` is `wei` |
| Ether.ParseFormatUnits | packages/nextjs/app/withdraw/page.tsx:21 | parsing what `formatUnits` prints gives back the value, for any number of decimals |
| Ether.FormatUnitsIsPlain | packages/nextjs/app/withdraw/page.tsx:47 | `formatUnits` prints digits with at most one '.', starting with a digit |
| Ether.ParseEther | packages/nextjs/app/withdraw/page.tsx:30 | `parseEther` accepts exactly viem's decimal syntax, and unsigned text gives a non-negative amount |
| Ether.ParseUnits | packages/nextjs/app/withdraw/page.tsx:30 | the same for any number of decimals |
| JsNumber.ParseFloat | packages/nextjs/app/withdraw/page.tsx:46 | `parseFloat` gives a negative number only for text starting with "-" |
| JsNumber.Greater | packages/nextjs/app/withdraw/page.tsx:62 | `>` between two numbers read from text: NaN compares false, otherwise the exact comparison of sign, mantissa and scale; GreaterAsymmetric and GreaterIgnoresTrailingZeros are its properties |
| JsNumber.GreaterAsymmetric | packages/nextjs/app/withdraw/page.tsx:62 | `>` is irreflexive and asymmetric on the numbers compared |
| JsNumber.GreaterIgnoresTrailingZeros | packages/nextjs/app/withdraw/page.tsx:62 | writing a number with more trailing zeros changes no comparison |
| JsNumber.ParseFloatWhole | packages/nextjs/app/withdraw/page.tsx:46 | digits followed by text that is not a digit or '.' read as the whole number |
| JsNumber.ParseFloatDecimal | packages/nextjs/app/withdraw/page.tsx:46 | `integer.fraction` followed by non-digit text reads as their digits over 10^(length of the fraction) |
| IpfsGateway.IsIpfsUri | packages/nextjs/utils/helper/fetchNFTName.ts:2 | `tokenURI && tokenURI.startsWith("ipfs://")` |
| IpfsGateway.CidAndPath | packages/nextjs/utils/helper/fetchNFTName.ts:7 | `tokenURI.replace("ipfs://", "")`, the first occurrence removed wherever it is; TokenCidAndPath gives the result for a token URI |
| IpfsGateway.Cid | packages/nextjs/utils/helper/fetchNFTName.ts:8 | the first part of `split("/")`; CidAndPathParts says which text it is |
| IpfsGateway.Path | packages/nextjs/utils/helper/fetchNFTName.ts:8 | the remaining parts joined with "/"; CidAndPathParts says which text it is |
| IpfsGateway.GatewayUrl | packages/nextjs/utils/helper/fetchNFTName.ts:14 | the template `https://${cid}.ipfs.w3s.link/${path.join("/")}`; GatewayUrlOfParts, HostSplitsUniquely and GatewayUrlInjective state what the rewrite keeps |
| IpfsGateway.RequestUrl | packages/nextjs/utils/helper/fetchNFTName.ts:2-16 | the URL fetched for a token URI, none for a non-IPFS URI or an empty cid; RequestUrlWithPath, RequestUrlWithoutPath and RequestUrlNone give each case |
| IpfsGateway.TokenCidAndPath | packages/nextjs/utils/helper/fetchNFTName.ts:7 | for an IPFS URI, `replace("ipfs://", "")` leaves exactly the text after the scheme |
| IpfsGateway.CidAndPathParts | packages/nextjs/utils/helper/fetchNFTName.ts:8 | the cid is the text before the first "/" and the path the text after it; without "/" the cid is everything and the path empty |
| IpfsGateway.CidAndPathRejoin | packages/nextjs/utils/helper/fetchNFTName.ts:8-14 | cid, "/" and path put together give back the text |
| IpfsGateway.GatewayUrlInjective | packages/nextjs/utils/helper/fetchNFTName.ts:14 | two cid-and-path texts with a "/" are sent to the same URL only when equal |
| IpfsGateway.HostSplitsUniquely | packages/nextjs/utils/helper/fetchNFTName.ts:14 | cid and path are recovered from the URL |
| IpfsGateway.FirstSlashAfterCid | packages/nextjs/utils/helper/fetchNFTName.ts:14 | after "https://", the first "/" of the URL ends the host |
| IpfsGateway.TrailingSlashSameUrl | packages/nextjs/utils/helper/fetchNFTName.ts:8-14 | `ipfs://cid` and `ipfs://cid/` are fetched from the same URL |
| IpfsGateway.CidEmpty | packages/nextjs/utils/helper/fetchNFTName.ts:10-12 | the cid is empty exactly when the text is empty or starts with "/" |
| IpfsGateway.GatewayUrlOfParts | packages/nextjs/utils/helper/fetchNFTName.ts:8-14 | `cid/path` is split back into cid and path and rewritten to `https://cid.ipfs.w3s.link/path` |
| IpfsGateway.RequestUrlWithPath | packages/nextjs/utils/helper/fetchNFTName.ts:2-16 | `ipfs://cid/path` is fetched from `https://cid.ipfs.w3s.link/path` |
| IpfsGateway.RequestUrlWithoutPath | packages/nextjs/utils/helper/fetchNFTName.ts:2-16 | `ipfs://cid` is fetched from `https://cid.ipfs.w3s.link/` |
| IpfsGateway.RequestUrlNone | packages/nextjs/utils/helper/fetchNFTName.ts:2-12 | nothing is fetched for `ipfs:///path` or a URI of another scheme |
| IpfsGateway.ImageGatewayUrl | packages/nextjs/utils/helper/fetchNFTImage.ts:30-33 | the same rewrite applied to the metadata's `image` address, whatever its form; ImageUrlOfIpfs, ImageUrlWithoutScheme and ImageUrlShape state its results |
| IpfsGateway.ImageUrlOfIpfs | packages/nextjs/utils/helper/fetchNFTImage.ts:30-33 | an `ipfs://` image address is rewritten like a token URI |
| IpfsGateway.ImageUrlWithoutScheme | packages/nextjs/utils/helper/fetchNFTImage.ts:30-33 | an image address without "ipfs://" is still wrapped in the gateway URL |
| IpfsGateway.ImageUrlShape | packages/nextjs/utils/helper/fetchNFTImage.ts:30-33 | the rewritten image URL is never empty, starts with "https://" and holds the gateway host |
| NftMetadata.BadStructure | packages/nextjs/utils/helper/fetchNFTName.ts:30-32 | `!metadata || typeof metadata !== "object"`; StructureAccepts gives exactly what passes |
| NftMetadata.StructureAccepts | packages/nextjs/utils/helper/fetchNFTName.ts:30-32 | the structure check lets through exactly arrays and objects |
| NftMetadata.Prop | packages/nextjs/utils/helper/fetchNFTName.ts:34-41 | a property read finds a value only on an object holding that key |
| NftMetadata.FindVehicle | packages/nextjs/utils/helper/fetchNFTName.ts:34-36 | `find` with `attr.trait_type === "Vehicle"`, element by element, throwing on a null element; the FindVehicle lemmas characterise its three outcomes |
| NftMetadata.FindVehicleFinds | packages/nextjs/utils/helper/fetchNFTName.ts:34-36 | `find` returns the first "Vehicle" attribute when no null element precedes it |
| NftMetadata.FindVehicleFound | packages/nextjs/utils/helper/fetchNFTName.ts:34-36 | an attribute `find` returns is the first "Vehicle" one, with no null before it |
| NftMetadata.FindVehicleUndefined | packages/nextjs/utils/helper/fetchNFTName.ts:34-36 | `find` returns undefined exactly when no element is null or a "Vehicle" attribute |
| NftMetadata.FindVehicleThrows | packages/nextjs/utils/helper/fetchNFTName.ts:34-36 | `find` throws exactly when a null element comes before every "Vehicle" attribute |
| NftMetadata.FindVehicleIgnoresLater | packages/nextjs/utils/helper/fetchNFTName.ts:34-36 | elements after the first "Vehicle" attribute are never looked at |
| NftMetadata.VehicleAttribute | packages/nextjs/utils/helper/fetchNFTName.ts:34-36 | `metadata.attributes?.find(...)`: undefined without attributes or for null, the search for an array, a throw for any other value; AttributesNotArrayThrows and the FindVehicle lemmas cover it |
| NftMetadata.ChooseName | packages/nextjs/utils/helper/fetchNFTName.ts:38-44 | a chosen name, from the attribute or from `name`, is truthy |
| NftMetadata.VehicleWins | packages/nextjs/utils/helper/fetchNFTName.ts:38-39 | the first "Vehicle" attribute with a truthy value wins over `name` and later attributes |
| NftMetadata.NameWithoutVehicle | packages/nextjs/utils/helper/fetchNFTName.ts:40-41 | without a "Vehicle" attribute, a truthy `name` is the name |
| NftMetadata.FalsyVehicleFallsBack | packages/nextjs/utils/helper/fetchNFTName.ts:38-44 | a "Vehicle" attribute with a falsy value gives way to `name`, else to no name |
| NftMetadata.AttributesNotArrayThrows | packages/nextjs/utils/helper/fetchNFTName.ts:34 | attributes that are neither absent, null nor an array make the look-up throw |
| FetchNftName.Resolve | packages/nextjs/utils/helper/fetchNFTName.ts:1-16 | the URI check, the cid check, then the response of the gateway URL; ResolveUriReasons and ResolveReadsOnlyRequestUrl state each step |
| FetchNftName.FromResponse | packages/nextjs/utils/helper/fetchNFTName.ts:16-47 | the status, parse and structure checks, the name priority and the outer catch; ResolveResponseReasons and ResolveFetched state each outcome |
| FetchNftName.NameText | packages/nextjs/utils/helper/fetchNFTName.ts:3-46 | the text returned at each step, with the two fallback texts as parameters |
| FetchNftName.FetchNFTName | packages/nextjs/utils/helper/fetchNFTName.ts:1-48 | `fetchNFTName`: the ladder's text with "Unknown NFT" and "Error loading NFT"; FetchNFTNameTruthy and FetchNFTNameVehicle state its properties |
| FetchNftName.HttpErrorText | packages/nextjs/utils/helper/fetchNFTName.ts:17-18 | the text is "Error: " followed by digits that read back as the status |
| FetchNftName.ResolveUriReasons | packages/nextjs/utils/helper/fetchNFTName.ts:2-12 | "waiting" exactly for a non-IPFS URI, "invalid URI" exactly for an empty cid, and a fetch exactly otherwise |
| FetchNftName.ResolveResponseReasons | packages/nextjs/utils/helper/fetchNFTName.ts:16-32 | the HTTP error carries the status and happens exactly for a non-ok status; the format and structure errors exactly for an unparsable body and a non-object |
| FetchNftName.ResolveFetched | packages/nextjs/utils/helper/fetchNFTName.ts:34-47 | for a well-formed object, the name is picked, missing or an error exactly as the name priority decides, and a picked name is truthy |
| FetchNftName.ResolveReadsOnlyRequestUrl | packages/nextjs/utils/helper/fetchNFTName.ts:14-16 | only the gateway URL is fetched |
| FetchNftName.FetchNFTNameTruthy | packages/nextjs/utils/helper/fetchNFTName.ts:1-48 | `fetchNFTName` always resolves to a truthy value |
| FetchNftName.FetchNFTNameVehicle | packages/nextjs/utils/helper/fetchNFTName.ts:34-39 | the first truthy "Vehicle" attribute is the name, whatever `name` says |
| FetchNftImage.FetchNFTImage | packages/nextjs/utils/helper/fetchNFTImage.ts:1-16 | `fetchNFTImage`: the placeholder for a non-IPFS URI or an empty cid, otherwise what the response gives; FetchNFTImageCases states the whole result |
| FetchNftImage.ImageFromResponse | packages/nextjs/utils/helper/fetchNFTImage.ts:16-37 | the placeholder for a network error, a bad status, an unparsable body, a non-object or a falsy or non-string `image`, otherwise the rewritten image address |
| FetchNftImage.HasImage | packages/nextjs/utils/helper/fetchNFTImage.ts:25-28 | a successful fetch whose object holds a non-empty string `image` |
| FetchNftImage.FetchNFTImageCases | packages/nextjs/utils/helper/fetchNFTImage.ts:1-37 | the result is the rewritten image address exactly when the metadata holds a non-empty string `image`, and the placeholder otherwise |
| FetchNftImage.PlaceholderIsNoImageUrl | packages/nextjs/utils/helper/fetchNFTImage.ts:30-33 | a rewritten address never equals the placeholder |
| FetchNftImage.FetchNFTImageShape | packages/nextjs/utils/helper/fetchNFTImage.ts:1-37 | the result is the placeholder or an "https://" URL on the gateway host |
| FetchNftImage.FetchNFTImageOfIpfsImage | packages/nextjs/utils/helper/fetchNFTImage.ts:30-33 | an `ipfs://cid/path` image is served from `https://cid.ipfs.w3s.link/path` |
| FetchNftImage.IpfsImageUrl | packages/nextjs/utils/helper/fetchNFTImage.ts:30-33 | the image rewrite of `ipfs://cid/path` |
| NftName.ComponentName | packages/nextjs/components/NFTName.tsx:14-61 | the text the component writes, the helper's ladder with "Unknown Vehicle" and "Error loading vehicle"; ComponentMatchesHelper ties it to `fetchNFTName` |
| NftName.ComponentMatchesHelper | packages/nextjs/components/NFTName.tsx:14-61 | the component shows what `fetchNFTName` gives, except "Unknown Vehicle" and "Error loading vehicle" for the two fallbacks |
| NftName.LoadingLookalike | packages/nextjs/components/NFTName.tsx:70 | a metadata name "Loading..." keeps the name pulsing after the fetch |
| NftName.NftNameView.constructor | packages/nextjs/components/NFTName.tsx:4 | the name starts as "Loading..." |
| NftName.NftNameView.UriChanged | packages/nextjs/components/NFTName.tsx:6-12 | a URI change resets to "Loading..."; a non-IPFS URI settles on "Waiting for NFT data..." and schedules nothing |
| NftName.NftNameView.MetadataFetched | packages/nextjs/components/NFTName.tsx:14-65 | the fetch writes the ladder's result once |
| NftImage.ResolveImage | packages/nextjs/components/NFTImage.tsx:15-29 | the URI check, the cid check, then the response of the gateway URL |
| NftImage.ImageOutcomeOf | packages/nextjs/components/NFTImage.tsx:29-65 | status, parse and structure as in the name ladder, then `metadata?.image.replace(...)`, which throws unless `image` is a string, and the `if (imageUrl)` test |
| NftImage.ImageSource | packages/nextjs/components/NFTImage.tsx:17-65 | the image source written at each step: error texts for the early returns, the URL, or the placeholder; ComponentMatchesHelper compares it with `fetchNFTImage` |
| NftImage.EmptyUrlUnreachable | packages/nextjs/components/NFTImage.tsx:57-61 | the `else` after `if (imageUrl)` is never taken |
| NftImage.LadderMatchesNameLadder | packages/nextjs/components/NFTImage.tsx:17-50 | up to the metadata check, the image ladder takes the same steps as the name ladder |
| NftImage.MissingImageGivesPlaceholder | packages/nextjs/components/NFTImage.tsx:52-65 | a missing or non-string `image` throws and the catch writes the placeholder |
| NftImage.ComponentMatchesHelper | packages/nextjs/components/NFTImage.tsx:17-65 | when `fetchNFTImage` finds an image, the component shows the same URL; on the early errors the component writes the error text as image source where the helper gives the placeholder |
| NftImage.EmptyImageDiffers | packages/nextjs/components/NFTImage.tsx:52-58 | an empty `image` gives the placeholder in the helper but the bare gateway host in the component |
| NftImage.EmptyImageUrl | packages/nextjs/components/NFTImage.tsx:52-55 | the rewrite of "" is "https://.ipfs.w3s.link/" |
| NftImage.NftImageView.constructor | packages/nextjs/components/NFTImage.tsx:5 | the image source starts as the placeholder |
| NftImage.NftImageView.UriChanged | packages/nextjs/components/NFTImage.tsx:7-13 | a URI change resets to the placeholder and schedules a fetch exactly for an IPFS URI |
| NftImage.NftImageView.MetadataFetched | packages/nextjs/components/NFTImage.tsx:15-70 | the fetch writes the ladder's image source once |
| UnsoldNftImage.UnsoldNftImageView.constructor | packages/nextjs/components/UnsoldNFTImage.tsx:5 | the image source starts as the placeholder |
| UnsoldNftImage.UnsoldNftImageView.UriChanged | packages/nextjs/components/UnsoldNFTImage.tsx:7-13 | a URI change resets to the placeholder and schedules a fetch exactly for an IPFS URI |
| UnsoldNftImage.UnsoldNftImageView.MetadataFetched | packages/nextjs/components/UnsoldNFTImage.tsx:15-66 | the fetch writes the same ladder's image source, never through the dead `else` |
| Countdown.Decompose | packages/nextjs/components/CountdownTimer.tsx:44-47 | whole days, and the hours, minutes and seconds left over, for a positive difference in milliseconds; DecomposeRecomposes, DecomposeUnique and DecomposeMonotone state what the split means |
| Countdown.DecomposeRecomposes | packages/nextjs/components/CountdownTimer.tsx:44-47 | hours < 24, minutes < 60, seconds < 60, and the units add up to the time left rounded down to a whole second |
| Countdown.DecomposeUnique | packages/nextjs/components/CountdownTimer.tsx:44-47 | any in-range split within a second below the time left is the one shown |
| Countdown.DecomposeMonotone | packages/nextjs/components/CountdownTimer.tsx:40-47 | less time left is never shown as more |
| Countdown.Display | packages/nextjs/components/CountdownTimer.tsx:23 | `value.toString().padStart(2, '0')`; DisplayReadsBack states what is shown |
| Countdown.DisplayReadsBack | packages/nextjs/components/CountdownTimer.tsx:23 | the shown text has at least two digits and reads back as the value; one digit gets a leading "0", more are shown unchanged |
| Countdown.CountdownTimer.constructor | packages/nextjs/components/CountdownTimer.tsx:31-36 | the state starts at zero in every unit |
| Countdown.CountdownTimer.Tick | packages/nextjs/components/CountdownTimer.tsx:39-50 | with time left the state is its split; at or after the end, or for an invalid date, the last values stay |
| BidHistory.FormatAddress | packages/nextjs/components/BidHistoryTable.tsx:69-71 | the length is min(6, n) + 3 + min(4, n) |
| BidHistory.FormatAddressParts | packages/nextjs/components/BidHistoryTable.tsx:70 | for every length, the first min(6, n) characters, "..." and the last min(4, n) characters |
| BidHistory.FormatAddressOfAccount | packages/nextjs/components/BidHistoryTable.tsx:70 | a 42-character address becomes 13 characters: its first 6, "..." at index 6, its last 4 |
| BidHistory.FormatAddressKeepsEnds | packages/nextjs/components/BidHistoryTable.tsx:70 | from 10 characters on, the first 6 and last 4 are kept around "..." |
| BidHistory.FormatAddressShort | packages/nextjs/components/BidHistoryTable.tsx:70 | a text under 4 characters appears whole on both sides of "..." |
| BidHistory.AmountText | packages/nextjs/components/BidHistoryTable.tsx:99 | `formatEther(bid.bidAmount)` followed by " ETH"; AmountTextReadsBack and AmountTextInjective state what it shows |
| BidHistory.AmountTextReadsBack | packages/nextjs/components/BidHistoryTable.tsx:99 | the amount ends with " ETH" and what precedes it reads back as the bid in wei |
| BidHistory.AmountTextInjective | packages/nextjs/components/BidHistoryTable.tsx:99 | different bids never show the same amount |
| BidHistory.RowOf | packages/nextjs/components/BidHistoryTable.tsx:94-104 | one bid's row: the shortened bidder, the amount text and the block timestamp; RowsShowAmounts states what each row shows |
| BidHistory.Map | packages/nextjs/components/BidHistoryTable.tsx:93 | `map`: as many results as elements, result i computed from element i |
| BidHistory.Rows | packages/nextjs/components/BidHistoryTable.tsx:93-105 | one row per bid, row i made from bid i |
| BidHistory.RowsAppend | packages/nextjs/components/BidHistoryTable.tsx:93-105 | bids that arrive later add their rows after the existing ones |
| BidHistory.RowsShowAmounts | packages/nextjs/components/BidHistoryTable.tsx:93-105 | each row shows its own bid's amount exactly and its own timestamp |
| BidHistory.Render | packages/nextjs/components/BidHistoryTable.tsx:45-55 | the component's returns in order: loading, the error message, no bids, the table; RenderCases states when each is shown |
| BidHistory.RenderCases | packages/nextjs/components/BidHistoryTable.tsx:45-55 | loading, then the error message, then "no bids" for no data or none, then the table, each exactly in its case |
| JsString.RemoveFirst | packages/nextjs/utils/helper/fetchNFTName.ts:7 | `replace` leaves the text unchanged when the pattern does not occur, and otherwise makes it the pattern's length shorter |
| JsString.RemoveFirstAt | packages/nextjs/utils/helper/fetchNFTImage.ts:31 | wherever the first occurrence is, `replace` keeps the text before and after it and removes only that occurrence |
| JsString.RemoveFirstOfPrefix | packages/nextjs/utils/helper/fetchNFTName.ts:7 | removing a prefix leaves what follows it |
| JsString.Split | packages/nextjs/utils/helper/fetchNFTName.ts:8 | `split` gives at least one part and no part holds the separator |
| JsString.JoinSplit | packages/nextjs/utils/helper/fetchNFTName.ts:8-14 | joining the parts of a split with the separator gives back the text |
| JsString.SplitHeadRest | packages/nextjs/utils/helper/fetchNFTName.ts:8-14 | the first part is the text before the first separator, the rest joined is the text after it |
| JsString.PadStart | packages/nextjs/components/CountdownTimer.tsx:23 | the padded text has the larger of the two lengths |
| JsString.SliceStart | packages/nextjs/components/BidHistoryTable.tsx:70 | `slice(0, n)` is the first min(n, length) characters |
| JsString.SliceLast | packages/nextjs/components/BidHistoryTable.tsx:70 | `slice(-n)` is the last min(n, length) characters |
| Digits.NatToString | packages/nextjs/utils/helper/fetchNFTName.ts:18 | a number prints as digits without a leading zero that read back as the number |
| Digits.PadZerosValue | packages/nextjs/components/CountdownTimer.tsx:23 | padding with "0" keeps digits and value |

## Left out

- Floating point: `parseFloat`, `Number` and `>` are exact decimal arithmetic here. Numbers that
  IEEE doubles round, such as amounts with more than about 15 significant digits or balances
  above 2^53 wei, may compare differently in the browser.
- Countdown.Decompose: CountdownTimer.tsx:44-47 divides milliseconds as doubles and floors the
  result; the model uses integer division and remainder. The two agree while a double quotient
  cannot round up to the next whole unit, which holds for differences far beyond an auction's
  length (centuries); for differences near 2^53 milliseconds they may not.
- JsNumber.ParseFloat: does not model leading white space, exponents ("1e3") or "Infinity", which
  the typed amount cannot hold but pasted text can.
- Ether.ParseEther: past 18 decimals the model rounds on the 19th digit alone, half up. viem
  rounds `Number(unit + "." + rest)`, a double, where `unit` is the 18th digit and `rest` the
  digits after it. A 19th digit 4 followed by enough 9s rounds differently: viem reads
  "0.0000000000000000004999999999999999999" as 1 wei (the double is 0.5), the model as 0 wei.
- Pasting or dropping text into the amount field is modelled only through `Change` with arbitrary
  text; the browser's `pattern` attribute (withdraw/page.tsx:143) only styles the field and is not
  modelled.
- The network, the wallet and the contract: the balance read, the connected account, the
  withdraw transaction and its success are parameters and events. The 5-second balance refetch
  and the write itself are not modelled.
- Timers: the success notice's 5-second timeout, the components' 1-second fetch delay and the
  countdown's 1-second interval are events (`NoticeExpired`, `MetadataFetched`, `Tick`), not
  time. Cancelling a pending fetch on a URI change is not modelled, and neither is a stale fetch
  finishing after a newer one.
- JSON numbers are integers; property reads see only an object's own keys (no prototype, no
  `length` of arrays or strings).
- Console logging in the helpers and components has no effect on results and is left out.
- BidHistoryTable: the resize handler's DOM writes and the locale rendering of
  `formatTimestamp` (it-IT date and time) are left out; a row keeps the raw block timestamp. The
  query's polling is the caller's: each render takes the query state as input. `data.bidPlaceds`
  is assumed present whenever `data` is.
- Countdown.CountdownTimer.Tick: the target date is a parameter (None for an invalid date, whose
  difference is NaN). `new Date()` is the `now` parameter.
- Page layout, styling, animation and markup are not modelled beyond the values they display.
