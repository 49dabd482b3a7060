/**
 * The printer and the parser of websocket channel ids (src/websocket/channel.ts). Both are
 * switches over the channel name, written out separately as in the source.
 */
module ChannelId {
  import opened Basics
  import opened Text

  /** Subscription parameters; a field that is not given is `undefined` in the source. */
  datatype Params = Params(
    channel: string,
    marketId: Option<string>,
    resolution: Option<string>,
    address: Option<string>,
    id: Option<string>,
    denom: Option<string>)

  function OnlyChannel(channel: string): Params {
    Params(channel, None, None, None, None, None)
  }

  /** `join` prints `undefined` as the empty string. */
  function Printed(field: Option<string>): string {
    field.GetOr("")
  }

  /** Which fields a channel takes. */
  datatype Layout = ByMarketAndResolution | ByMarket | ByAddress | ByMarketAndAddress | ById | ByDenom | Bare | Unknown

  /** The cases of the switch in `generateChannelId`. */
  function PrintLayout(c: string): Layout {
    if c == "candlesticks" then ByMarketAndResolution
    else if c == "books" || c == "recent_trades" || c == "market_stats_by_market" then ByMarket
    else if c == "orders" || c == "balances" || c == "account_trades" || c == "leverages" || c == "positions"
            || c == "commitments" || c == "cdp_borrows" || c == "cdp_collaterals" || c == "cdp_reward_debts" then ByAddress
    else if c == "orders_by_market" || c == "account_trades_by_market" || c == "leverages_by_market"
            || c == "positions_by_market" then ByMarketAndAddress
    else if c == "pools_by_id" then ById
    else if c == "token_prices_by_denom" || c == "cdp_token_debts_by_denom" || c == "cdp_token_supply_by_denom"
            || c == "token_supply_by_denom" then ByDenom
    else if c == "market_stats" || c == "pools" || c == "token_prices" || c == "cdp_liquidate_collaterals"
            || c == "cdp_token_debts" || c == "cdp_reward_schemes" || c == "cdp_token_supply"
            || c == "market_liquidity_usage_multiplier" then Bare
    else Unknown
  }

  /** The cases of the switch in `parseChannelId`. */
  function ParseLayout(c: string): Layout {
    if c == "candlesticks" then ByMarketAndResolution
    else if c == "books" || c == "recent_trades" || c == "market_stats_by_market" then ByMarket
    else if c == "orders" || c == "balances" || c == "account_trades" || c == "leverages" || c == "positions"
            || c == "commitments" || c == "cdp_borrows" || c == "cdp_collaterals" || c == "cdp_reward_debts" then ByAddress
    else if c == "orders_by_market" || c == "account_trades_by_market" || c == "leverages_by_market"
            || c == "positions_by_market" then ByMarketAndAddress
    else if c == "pools_by_id" then ById
    else if c == "token_prices_by_denom" || c == "cdp_token_debts_by_denom" || c == "cdp_token_supply_by_denom"
            || c == "token_supply_by_denom" then ByDenom
    else if c == "market_stats" || c == "pools" || c == "token_prices" || c == "cdp_liquidate_collaterals"
            || c == "cdp_token_debts" || c == "cdp_reward_schemes" || c == "cdp_token_supply"
            || c == "market_liquidity_usage_multiplier" then Bare
    else Unknown
  }

  function Print(layout: Layout, p: Params): Option<string> {
    match layout
    case ByMarketAndResolution => Some(Join([p.channel, Printed(p.marketId), Printed(p.resolution)], ':'))
    case ByMarket => Some(Join([p.channel, Printed(p.marketId)], ':'))
    case ByAddress => Some(Join([p.channel, Printed(p.address)], ':'))
    case ByMarketAndAddress => Some(Join([p.channel, Printed(p.marketId), Printed(p.address)], ':'))
    case ById => Some(Join([p.channel, Printed(p.id)], ':'))
    case ByDenom => Some(Join([p.channel, Printed(p.denom)], ':'))
    case Bare => Some(Join([p.channel], ':'))
    case Unknown => None
  }

  /** `None`: the source throws "invalid subscription channel". */
  function GenerateChannelId(p: Params): Option<string> {
    Print(PrintLayout(p.channel), p)
  }

  /** Destructuring an array: a missing element is `undefined`. */
  function Element(parts: seq<string>, i: nat): Option<string> {
    if i < |parts| then Some(parts[i]) else None
  }

  function Parse(layout: Layout, parts: seq<string>): Option<Params>
    requires parts != []
  {
    var bare := OnlyChannel(parts[0]);
    var param0, param1 := Element(parts, 1), Element(parts, 2);
    match layout
    case ByMarketAndResolution => Some(bare.(marketId := param0, resolution := param1))
    case ByMarket => Some(bare.(marketId := param0))
    case ByAddress => Some(bare.(address := param0))
    case ByMarketAndAddress => Some(bare.(marketId := param0, address := param1))
    case ById => Some(bare.(id := param0))
    case ByDenom => Some(bare.(denom := param0))
    case Bare => Some(bare)
    case Unknown => None
  }

  /** `None`: the source throws "Error parsing channelId". */
  function ParseChannelId(rawChannelId: string): Option<Params> {
    var parts := Split(rawChannelId, ':');
    Parse(ParseLayout(parts[0]), parts)
  }

  // ----- round trip -----

  datatype Field = MarketId | Resolution | Address | Id | Denom

  function Get(p: Params, f: Field): Option<string> {
    match f
    case MarketId => p.marketId
    case Resolution => p.resolution
    case Address => p.address
    case Id => p.id
    case Denom => p.denom
  }

  /** The fields that an id of this layout carries. */
  function Carried(layout: Layout): set<Field> {
    match layout
    case ByMarketAndResolution => {MarketId, Resolution}
    case ByMarket => {MarketId}
    case ByAddress => {Address}
    case ByMarketAndAddress => {MarketId, Address}
    case ById => {Id}
    case ByDenom => {Denom}
    case Bare => {}
    case Unknown => {}
  }

  /** `q` has the channel and the carried fields of `p`, as printed, and nothing else. */
  ghost predicate SameSubscription(layout: Layout, p: Params, q: Params) {
    && q.channel == p.channel
    && forall f :: Get(q, f) == if f in Carried(layout) then Some(Printed(Get(p, f))) else None
  }

  ghost predicate NoColons(layout: Layout, p: Params) {
    forall f :: f in Carried(layout) ==> ':' !in Printed(Get(p, f))
  }

  /** Channel names are made of lower-case letters and underscores. */
  predicate Plain(c: string) {
    c != "" && forall i :: 0 <= i < |c| ==> c[i] == '_' || 'a' <= c[i] <= 'z'
  }

  lemma MarketNamesArePlain()
    ensures Plain("candlesticks") && Plain("books") && Plain("recent_trades") && Plain("market_stats_by_market")
    ensures Plain("orders_by_market") && Plain("account_trades_by_market") && Plain("leverages_by_market")
    ensures Plain("positions_by_market")
  {
  }

  lemma AddressNamesArePlain()
    ensures Plain("orders") && Plain("balances") && Plain("account_trades") && Plain("leverages") && Plain("positions")
    ensures Plain("commitments") && Plain("cdp_borrows") && Plain("cdp_collaterals") && Plain("cdp_reward_debts")
  {
  }

  lemma DenomNamesArePlain()
    ensures Plain("pools_by_id") && Plain("token_prices_by_denom") && Plain("cdp_token_debts_by_denom")
    ensures Plain("cdp_token_supply_by_denom") && Plain("token_supply_by_denom")
  {
  }

  lemma BareNamesArePlain()
    ensures Plain("market_stats") && Plain("pools") && Plain("token_prices") && Plain("cdp_liquidate_collaterals")
    ensures Plain("cdp_token_debts") && Plain("cdp_reward_schemes") && Plain("cdp_token_supply")
    ensures Plain("market_liquidity_usage_multiplier")
  {
  }

  lemma ChannelNamesArePlain(c: string)
    requires PrintLayout(c) != Unknown
    ensures Plain(c)
  {
    MarketNamesArePlain();
    AddressNamesArePlain();
    DenomNamesArePlain();
    BareNamesArePlain();
  }

  lemma LayoutsAgree(c: string)
    ensures PrintLayout(c) == ParseLayout(c)
  {
  }

  lemma SplitId(c: string, fields: seq<string>)
    requires ':' !in c
    ensures Split(Join([c] + fields, ':'), ':')[0] == c
    ensures (forall i :: 0 <= i < |fields| ==> ':' !in fields[i]) ==> Split(Join([c] + fields, ':'), ':') == [c] + fields
  {
    if fields == [] {
      assert [c] + fields == [c];
      SplitPart(c, ':');
    } else {
      assert ([c] + fields)[1..] == fields;
      SplitFirst(c, ':', Join(fields, ':'));
      if forall i :: 0 <= i < |fields| ==> ':' !in fields[i] {
        SplitJoin(fields, ':');
      }
    }
  }

  /** The fields of `p` in the order in which its layout prints them. */
  function Fields(layout: Layout, p: Params): seq<string> {
    match layout
    case ByMarketAndResolution => [Printed(p.marketId), Printed(p.resolution)]
    case ByMarket => [Printed(p.marketId)]
    case ByAddress => [Printed(p.address)]
    case ByMarketAndAddress => [Printed(p.marketId), Printed(p.address)]
    case ById => [Printed(p.id)]
    case ByDenom => [Printed(p.denom)]
    case Bare => []
    case Unknown => []
  }

  lemma JoinTwo(a: string, b: string, c: string)
    ensures Join([a], ':') == a && Join([a, b], ':') == a + ":" + b && Join([a, b, c], ':') == a + ":" + b + ":" + c
  {
    assert [b, c][1..] == [c] && [a, b][1..] == [b] && [a, b, c][1..] == [b, c];
    assert Join([b, c], ':') == b + [':'] + c;
    assert a + [':'] + (b + [':'] + c) == a + ":" + b + ":" + c;
  }

  /** The text of an id: the channel and its fields, market first, with colons between them. */
  lemma PrintedText(layout: Layout, p: Params)
    requires layout != Unknown
    ensures var market, address := Printed(p.marketId), Printed(p.address);
            Print(layout, p) == Some(
              if layout == Bare then p.channel
              else if layout == ByMarketAndResolution then p.channel + ":" + market + ":" + Printed(p.resolution)
              else if layout == ByMarketAndAddress then p.channel + ":" + market + ":" + address
              else if layout == ByMarket then p.channel + ":" + market
              else if layout == ByAddress then p.channel + ":" + address
              else p.channel + ":" + (if layout == ById then Printed(p.id) else Printed(p.denom)))
  {
    var fields := Fields(layout, p) + ["", ""];
    JoinTwo(p.channel, fields[0], fields[1]);
    assert Print(layout, p).value == Join([p.channel] + Fields(layout, p), ':');
    assert |Fields(layout, p)| == 0 ==> [p.channel] + Fields(layout, p) == [p.channel];
    assert |Fields(layout, p)| == 1 ==> [p.channel] + Fields(layout, p) == [p.channel, fields[0]];
    assert |Fields(layout, p)| == 2 ==> [p.channel] + Fields(layout, p) == [p.channel, fields[0], fields[1]];
  }

  /** Which channels take a market, an address, both, or a market and a resolution. */
  lemma MarketChannels(c: string, layout: Layout)
    requires layout == PrintLayout(c)
    ensures c in {"books", "recent_trades", "market_stats_by_market"} <==> layout == ByMarket
    ensures c in {"orders_by_market", "account_trades_by_market", "leverages_by_market", "positions_by_market"} <==> layout == ByMarketAndAddress
    ensures c == "candlesticks" <==> layout == ByMarketAndResolution
  {
  }

  lemma AddressChannels(c: string, layout: Layout)
    requires layout == PrintLayout(c)
    ensures layout == ByAddress <==>
            c in {"orders", "balances", "account_trades", "leverages", "positions", "commitments", "cdp_borrows", "cdp_collaterals",
                  "cdp_reward_debts"}
  {
  }

  /** Which channels take an id or a denomination. */
  lemma DenomChannels(c: string)
    ensures PrintLayout(c) == ById ==> c == "pools_by_id"
    ensures PrintLayout(c) == ByDenom ==>
              c in {"token_prices_by_denom", "cdp_token_debts_by_denom", "cdp_token_supply_by_denom", "token_supply_by_denom"}
  {
  }

  lemma DenomChannelsOnly()
    ensures PrintLayout("pools_by_id") == ById
    ensures PrintLayout("token_prices_by_denom") == PrintLayout("token_supply_by_denom") == ByDenom
  {
  }

  lemma DebtDenomChannelsOnly()
    ensures PrintLayout("cdp_token_debts_by_denom") == PrintLayout("cdp_token_supply_by_denom") == ByDenom
  {
  }

  /** Which channels take nothing. */
  lemma BareChannels(c: string)
    requires PrintLayout(c) == Bare
    ensures c in {"market_stats", "pools", "token_prices", "cdp_liquidate_collaterals", "cdp_token_debts", "cdp_reward_schemes",
                  "cdp_token_supply", "market_liquidity_usage_multiplier"}
  {
  }

  lemma BareChannelsOnly()
    ensures PrintLayout("market_stats") == PrintLayout("pools") == PrintLayout("token_prices") == Bare
  {
  }

  lemma BareDebtChannelsOnly()
    ensures PrintLayout("cdp_liquidate_collaterals") == PrintLayout("cdp_token_debts") == PrintLayout("cdp_reward_schemes") == Bare
  {
  }

  lemma BareSupplyChannelsOnly()
    ensures PrintLayout("cdp_token_supply") == PrintLayout("market_liquidity_usage_multiplier") == Bare
  {
  }

  /** All of these are known. */
  lemma OtherChannelsAreKnown(c: string)
    requires || c in {"pools_by_id", "token_prices_by_denom", "token_supply_by_denom", "cdp_token_debts_by_denom", "cdp_token_supply_by_denom"}
             || c in {"market_stats", "pools", "token_prices", "cdp_liquidate_collaterals"}
             || c in {"cdp_token_debts", "cdp_reward_schemes", "cdp_token_supply", "market_liquidity_usage_multiplier"}
    ensures PrintLayout(c) != Unknown
  {
    DenomChannelsOnly();
    DebtDenomChannelsOnly();
    BareChannelsOnly();
    BareDebtChannelsOnly();
    BareSupplyChannelsOnly();
  }

  lemma RoundTripOf(layout: Layout, p: Params)
    requires ':' !in p.channel && layout != Unknown
    ensures Print(layout, p).Some?
    ensures Split(Print(layout, p).value, ':')[0] == p.channel
    ensures SameSubscription(layout, p, Parse(layout, Split(Print(layout, p).value, ':')).value) <==> NoColons(layout, p)
  {
    var fields := Fields(layout, p);
    SplitId(p.channel, fields);
    assert Print(layout, p).value == Join([p.channel] + fields, ':');
    var parts := Split(Print(layout, p).value, ':');
    var q := Parse(layout, parts).value;
    if NoColons(layout, p) {
      assert parts == [p.channel] + fields;
    } else {
      var f :| f in Carried(layout) && ':' in Printed(Get(p, f));
      assert Get(q, f) != Some(Printed(Get(p, f)));
    }
  }

  /**
   * Parsing a printed id gives the subscription back exactly when no carried field contains a
   * colon; on all 30 channels.
   */
  lemma RoundTrip(p: Params)
    requires GenerateChannelId(p).Some?
    ensures ParseChannelId(GenerateChannelId(p).value).Some?
    ensures SameSubscription(PrintLayout(p.channel), p, ParseChannelId(GenerateChannelId(p).value).value)
            <==> NoColons(PrintLayout(p.channel), p)
  {
    ChannelNamesArePlain(p.channel);
    LayoutsAgree(p.channel);
    RoundTripOf(PrintLayout(p.channel), p);
  }

  /** Distinct subscriptions have distinct ids, across all channels. */
  lemma Injective(p: Params, q: Params)
    requires GenerateChannelId(p).Some? && GenerateChannelId(q) == GenerateChannelId(p)
    requires NoColons(PrintLayout(p.channel), p) && NoColons(PrintLayout(q.channel), q)
    ensures p.channel == q.channel
    ensures forall f :: f in Carried(PrintLayout(p.channel)) ==> Printed(Get(p, f)) == Printed(Get(q, f))
  {
    RoundTrip(p);
    RoundTrip(q);
    var r := ParseChannelId(GenerateChannelId(p).value).value;
    forall f | f in Carried(PrintLayout(p.channel))
      ensures Printed(Get(p, f)) == Printed(Get(q, f))
    {
      assert Get(r, f) == Some(Printed(Get(p, f))) == Some(Printed(Get(q, f)));
    }
  }
}
