/**
 * The bid history table of an auction: what the component renders for the state of its bids
 * query (loading, failed, empty, or a table), and the row each bid becomes, with the bidder's
 * address shortened and the amount written in ether.
 */
module BidHistory {
  import opened Wrappers
  import opened JsString
  import opened Ether

  /** The fields of a placed bid that the table shows. */
  datatype Bid = Bid(bidder: string, bidAmount: nat, blockTimestamp: nat)

  /** The state of the bids query: still loading, the error's message if it failed, the bids if any arrived. */
  datatype Query = Query(loading: bool, error: Option<string>, data: Option<seq<Bid>>)

  /** One table row: shortened address, amount text, and the block timestamp it was placed at. */
  datatype Row = Row(address: string, amount: string, timestamp: nat)

  /** What the component renders. */
  datatype View = LoadingHistory | ErrorMessage(message: string) | NoBids | Table(rows: seq<Row>)

  /** `${address.slice(0, 6)}...${address.slice(-4)}`. */
  function FormatAddress(address: string): (r: string)
    ensures |r| == (if |address| < 6 then |address| else 6) + 3 + (if |address| < 4 then |address| else 4)
  {
    SliceStart(address, 6) + "..." + SliceLast(address, 4)
  }

  /**
   * For every length: the first min(6, n) characters, "...", and the last min(4, n) characters
   * of the address, so texts of 4 to 9 characters show their middle twice.
   */
  lemma {:induction false} FormatAddressParts(address: string)
    ensures var n := |address|;
      FormatAddress(address)
        == address[..if n < 6 then n else 6] + "..." + address[n - (if n < 4 then n else 4)..]
  {
  }

  /** A checksummed address of 42 characters becomes 13: its first 6, "...", its last 4. */
  lemma {:induction false} FormatAddressOfAccount(address: string)
    requires |address| == 42
    ensures var r := FormatAddress(address);
      |r| == 13 && r[..6] == address[..6] && r[6..9] == "..." && r[9..] == address[38..]
  {
    var r := FormatAddress(address);
    assert r == address[..6] + "..." + address[38..];
  }

  /**
   * For any address of at least 10 characters, the shortened text starts with the address's
   * first 6 and ends with its last 4, with "..." between them and nothing else.
   */
  lemma {:induction false} FormatAddressKeepsEnds(address: string)
    requires |address| >= 10
    ensures var r := FormatAddress(address);
      r == address[..6] + "..." + address[|address| - 4..] &&
      StartsWith(r, address[..6]) && r[|r| - 4..] == address[|address| - 4..]
  {
    var r := FormatAddress(address);
    assert r[..6] == address[..6];
  }

  /** A text shorter than 4 characters is shown whole on both sides of the "...". */
  lemma {:induction false} FormatAddressShort(address: string)
    requires |address| < 4
    ensures FormatAddress(address) == address + "..." + address
  {
  }

  /** `${formatEther(bid.bidAmount)} ETH`. */
  function AmountText(wei: nat): string {
    FormatEther(wei) + " ETH"
  }

  /** The amount text ends with " ETH" and what comes before it reads back as the bid amount. */
  lemma {:induction false} AmountTextReadsBack(wei: nat)
    ensures var t := AmountText(wei);
      |t| >= 4 && t[|t| - 4..] == " ETH" && ParseEther(t[..|t| - 4]) == Some(wei)
  {
    var t := AmountText(wei);
    assert t[..|t| - 4] == FormatEther(wei);
    ParseFormatEther(wei);
  }

  /** Two different amounts never show the same text. */
  lemma {:induction false} AmountTextInjective(a: nat, b: nat)
    requires AmountText(a) == AmountText(b)
    ensures a == b
  {
    AmountTextReadsBack(a);
    AmountTextReadsBack(b);
  }

  /** The row of one bid; the timestamp is kept as a number, its locale rendering is not modelled. */
  function RowOf(bid: Bid): Row {
    Row(FormatAddress(bid.bidder), AmountText(bid.bidAmount), bid.blockTimestamp)
  }

  /** `xs.map(f)`: one result per element, in order. */
  function Map<A, B>(f: A -> B, xs: seq<A>): (ys: seq<B>)
    ensures |ys| == |xs|
    ensures forall i :: 0 <= i < |xs| ==> ys[i] == f(xs[i])
  {
    if xs == [] then [] else [f(xs[0])] + Map(f, xs[1..])
  }

  /** `data.bidPlaceds.map(...)`: one row per bid, in the order the bids arrived. */
  function Rows(bids: seq<Bid>): (rows: seq<Row>)
    ensures |rows| == |bids|
    ensures forall i :: 0 <= i < |bids| ==> rows[i] == RowOf(bids[i])
  {
    Map(RowOf, bids)
  }

  /** Bids that arrive after the ones already shown add their rows after the existing rows. */
  lemma {:induction false} RowsAppend(earlier: seq<Bid>, later: seq<Bid>)
    ensures Rows(earlier + later) == Rows(earlier) + Rows(later)
  {
    MapAppend(RowOf, earlier, later);
  }

  /** Mapping a concatenation maps each part in turn. */
  lemma {:induction false} MapAppend<A, B>(f: A -> B, xs: seq<A>, ys: seq<A>)
    ensures Map(f, xs + ys) == Map(f, xs) + Map(f, ys)
    decreases |xs|
  {
    if xs == [] {
      assert xs + ys == ys;
    } else {
      assert (xs + ys)[1..] == xs[1..] + ys;
      MapAppend(f, xs[1..], ys);
    }
  }

  /** Every row shows its bid's amount exactly: the amount text reads back as the bid's wei. */
  lemma {:induction false} RowsShowAmounts(bids: seq<Bid>, i: int)
    requires 0 <= i < |bids|
    ensures var t := Rows(bids)[i].amount;
      |t| >= 4 && ParseEther(t[..|t| - 4]) == Some(bids[i].bidAmount) &&
      Rows(bids)[i].timestamp == bids[i].blockTimestamp
  {
    AmountTextReadsBack(bids[i].bidAmount);
  }

  /** The ladder: loading first, then the error, then an empty result, then the table. */
  function Render(q: Query): View {
    if q.loading then LoadingHistory
    else if q.error.Some? then ErrorMessage(q.error.value)
    else if q.data.None? || q.data.value == [] then NoBids
    else Table(Rows(q.data.value))
  }

  /**
   * Each view is shown exactly in its case: loading hides an error and any data, an error hides
   * any data, and a table is shown only for at least one bid, with one row per bid.
   */
  lemma {:induction false} RenderCases(q: Query)
    ensures Render(q) == LoadingHistory <==> q.loading
    ensures Render(q).ErrorMessage? <==> !q.loading && q.error.Some?
    ensures Render(q).ErrorMessage? ==> Render(q).message == q.error.value
    ensures Render(q) == NoBids <==> !q.loading && q.error.None? && (q.data.None? || q.data.value == [])
    ensures Render(q).Table? <==> !q.loading && q.error.None? && q.data.Some? && q.data.value != []
    ensures Render(q).Table? ==> |Render(q).rows| == |q.data.value| > 0
  {
  }
}
