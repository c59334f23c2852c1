/** The value derivations behind the epoch caches: the epoch-provisions coin
    and the lookup of one epoch's duration in the cached epoch list. The
    cache itself, the chain queries and the asset registry are inputs. */
module Epochs {
  import opened Results
  import JsString
  import Decimal

  /** Cache keys and time-to-live (milliseconds) of the two epoch caches,
      which share one LRU store. */
  const EpochsCacheKey: string := "epochs"
  const ProvisionsCacheKey: string := "epoch-provisions"
  const EpochsTtlMs: nat := 30 * 1000
  const ProvisionsTtlMs: nat := 30 * 1000

  lemma EpochCacheConfiguration()
    ensures EpochsTtlMs == 30000 && ProvisionsTtlMs == 30000
    ensures EpochsCacheKey != ProvisionsCacheKey
  {
    assert |EpochsCacheKey| != |ProvisionsCacheKey|;
  }

  // ---------------------------------------------------------------------
  // Epoch provisions
  // ---------------------------------------------------------------------

  /** The part of the mint module's parameters the derivation reads. */
  datatype MintParams = MintParams(mintDenom: string)

  /** The chain's answer to the epoch-provisions query: a decimal string. */
  datatype ProvisionsResponse = ProvisionsResponse(epochProvisions: string)

  /** A registered asset, as the asset lookup returns it. */
  datatype Asset = Asset(coinDenom: string, coinMinimalDenom: string, coinDecimals: nat)

  /** An integer amount of a currency. */
  datatype Coin = Coin(currency: Asset, amount: nat)

  datatype ProvisionsError =
    | UnknownCurrency
      /** The integer constructor rejected the truncated amount text. */
    | InvalidInteger(text: string)

  /** Nothing to report, a thrown error, or the provisions coin. */
  datatype Provisions = Absent | Failed(error: ProvisionsError) | Provided(coin: Coin)

  /** Cuts a decimal string at its first `.`; a string without `.` is kept whole. */
  function TruncateAtDot(s: string): (r: string)
    ensures r <= s
    ensures '.' !in r
    ensures '.' !in s ==> r == s
    ensures '.' in s ==> |r| < |s| && s[|r|] == '.'
  {
    if '.' in s then s[..JsString.IndexOf(s, '.')] else s
  }

  /** Truncating twice is truncating once. */
  lemma TruncateIdempotent(s: string)
    ensures TruncateAtDot(TruncateAtDot(s)) == TruncateAtDot(s)
  {
  }

  /** The integer part of `whole.fraction` is `whole`: the fraction is
      dropped, never rounded, whatever it contains. */
  lemma TruncateDropsFraction(whole: string, fraction: string)
    requires '.' !in whole
    ensures TruncateAtDot(whole + "." + fraction) == whole
  {
    var s := whole + "." + fraction;
    assert s[|whole|] == '.';
    assert s[..|whole|] == whole;
  }

  /** `new Int(text)` for the texts this derivation can produce: a non-empty
      run of decimal digits is accepted, anything else is an error. */
  function IntFromString(text: string): (r: Result<nat, ProvisionsError>)
    ensures r.Ok? <==> |text| > 0 && Decimal.AllDigits(text)
    ensures r.Ok? ==> r.value == Decimal.DigitsToNat(text)
    ensures r.Ok? && Decimal.Canonical(text) ==> Decimal.NatToDigits(r.value) == text
    ensures r.Err? ==> r.error == InvalidInteger(text)
  {
    if |text| > 0 && Decimal.AllDigits(text) then
      var n := Decimal.DigitsToNat(text);
      if Decimal.Canonical(text) then
        Decimal.DigitsToNatRoundTrip(text);
        Ok(n)
      else Ok(n)
    else Err(InvalidInteger(text))
  }

  /** The value `getEpochProvisions` caches, given the two query answers and
      the asset lookup (`getAsset` keyed by any denomination). */
  function EpochProvisions(params: MintParams, response: Option<ProvisionsResponse>,
                           getAsset: string -> Option<Asset>): (r: Provisions)
    ensures r.Absent? <==> response.None? || params.mintDenom == ""
    ensures r == Failed(UnknownCurrency)
            <==> response.Some? && params.mintDenom != "" && getAsset(params.mintDenom).None?
    ensures r.Provided? ==>
              && response.Some?
              && getAsset(params.mintDenom) == Some(r.coin.currency)
              && IntFromString(TruncateAtDot(response.value.epochProvisions)) == Ok(r.coin.amount)
    ensures r.Provided?
            <==> && response.Some? && params.mintDenom != ""
                 && getAsset(params.mintDenom).Some?
                 && IntFromString(TruncateAtDot(response.value.epochProvisions)).Ok?
    ensures r.Failed? && r.error.InvalidInteger? ==>
              && response.Some?
              && r.error.text == TruncateAtDot(response.value.epochProvisions)
  {
    if response.None? || params.mintDenom == "" then Absent
    else
      match getAsset(params.mintDenom)
      case None => Failed(UnknownCurrency)
      case Some(currency) =>
        match IntFromString(TruncateAtDot(response.value.epochProvisions))
        case Ok(amount) => Provided(Coin(currency, amount))
        case Err(e) => Failed(e)
  }

  /** When the result is absent the asset lookup is never consulted: any
      other lookup gives the same result. */
  lemma AbsentIgnoresAssetLookup(params: MintParams, response: Option<ProvisionsResponse>,
                                 f: string -> Option<Asset>, g: string -> Option<Asset>)
    requires EpochProvisions(params, response, f).Absent?
    ensures EpochProvisions(params, response, g) == Absent
  {
  }

  /** The lookup is consulted at the mint denomination and nowhere else. */
  lemma OnlyMintDenomLookedUp(params: MintParams, response: Option<ProvisionsResponse>,
                              f: string -> Option<Asset>, g: string -> Option<Asset>)
    requires f(params.mintDenom) == g(params.mintDenom)
    ensures EpochProvisions(params, response, f) == EpochProvisions(params, response, g)
  {
  }

  /** A provisions string `whole.fraction` with a digit-only integer part
      yields exactly the value of that integer part in the mint currency. */
  lemma ProvisionsTruncate(params: MintParams, whole: string, fraction: string,
                           getAsset: string -> Option<Asset>, currency: Asset)
    requires params.mintDenom != "" && getAsset(params.mintDenom) == Some(currency)
    requires |whole| > 0 && Decimal.AllDigits(whole)
    ensures EpochProvisions(params, Some(ProvisionsResponse(whole + "." + fraction)), getAsset)
            == Provided(Coin(currency, Decimal.DigitsToNat(whole)))
  {
    Decimal.DigitsExclude(whole, '.');
    TruncateDropsFraction(whole, fraction);
  }

  /** A provisions string without `.` is read whole. */
  lemma ProvisionsWithoutDot(params: MintParams, digits: string,
                             getAsset: string -> Option<Asset>, currency: Asset)
    requires params.mintDenom != "" && getAsset(params.mintDenom) == Some(currency)
    requires |digits| > 0 && Decimal.AllDigits(digits)
    ensures EpochProvisions(params, Some(ProvisionsResponse(digits)), getAsset)
            == Provided(Coin(currency, Decimal.DigitsToNat(digits)))
  {
    Decimal.DigitsExclude(digits, '.');
  }

  /** "123.999" gives 123: truncated, not rounded to 124, and not an error. */
  lemma TruncationExample(params: MintParams, getAsset: string -> Option<Asset>, currency: Asset)
    requires params.mintDenom != "" && getAsset(params.mintDenom) == Some(currency)
    ensures EpochProvisions(params, Some(ProvisionsResponse("123.999")), getAsset)
            == Provided(Coin(currency, 123))
  {
    SplitAtDot();
    ProvisionsTruncate(params, "123", "999", getAsset, currency);
    ValueOf123();
  }

  lemma SplitAtDot()
    ensures "123.999" == "123" + "." + "999"
  {
  }

  lemma ValueOf123()
    ensures Decimal.DigitsToNat("123") == 123
  {
    assert Decimal.NatToDigits(123) == "123";
    Decimal.NatToDigitsRoundTrip(123);
  }

  // ---------------------------------------------------------------------
  // Epoch lookup
  // ---------------------------------------------------------------------

  /** One element of the cached epoch list; `duration` is text such as "86400s". */
  datatype Epoch = Epoch(identifier: string, duration: string)

  datatype EpochError = NotFound(identifier: string)

  /** What `getEpoch` returns: the parsed duration in seconds. */
  datatype EpochInfo = EpochInfo(duration: Decimal.Number)

  /** `epochs.find(...)`, as a position: the first epoch with the identifier. */
  function FirstMatch(epochs: seq<Epoch>, identifier: string): (r: Option<nat>)
    ensures r.None? <==> forall i :: 0 <= i < |epochs| ==> epochs[i].identifier != identifier
    ensures r.Some? ==>
              && r.value < |epochs|
              && epochs[r.value].identifier == identifier
              && forall j :: 0 <= j < r.value ==> epochs[j].identifier != identifier
  {
    if |epochs| == 0 then None
    else if epochs[0].identifier == identifier then Some(0)
    else
      match FirstMatch(epochs[1..], identifier)
      case None => None
      case Some(k) => Some(k + 1)
  }

  /** `parseInt(duration.replace("s", ""))`: drop the first `s`, read the
      digits. A duration written as digits followed by `s` parses to the value
      of the digits. */
  function ParseDuration(duration: string): (r: Decimal.Number)
    ensures |duration| > 1 && duration[|duration| - 1] == 's'
            && Decimal.AllDigits(duration[..|duration| - 1])
            ==> r == Decimal.Num(Decimal.DigitsToNat(duration[..|duration| - 1]))
  {
    var n := |duration|;
    if n > 1 && duration[n - 1] == 's' && Decimal.AllDigits(duration[..n - 1]) then
      assert duration == duration[..n - 1] + "s";
      DigitsThenSuffix(duration[..n - 1]);
      Decimal.ParseInt(JsString.RemoveFirst(duration, 's'))
    else
      Decimal.ParseInt(JsString.RemoveFirst(duration, 's'))
  }

  lemma DigitsThenSuffix(digits: string)
    requires |digits| > 0 && Decimal.AllDigits(digits)
    ensures Decimal.ParseInt(JsString.RemoveFirst(digits + "s", 's'))
            == Decimal.Num(Decimal.DigitsToNat(digits))
  {
    Decimal.DigitsExclude(digits, 's');
    JsString.RemoveFirstSplice(digits, 's', "");
    assert digits + "s" == digits + ['s'] + "";
    assert digits + "" == digits;
  }

  /** Any number of seconds, rendered as its decimal digits followed by `s`,
      parses back to itself. */
  lemma DurationRoundTrip(seconds: nat)
    ensures ParseDuration(Decimal.NatToDigits(seconds) + "s") == Decimal.Num(seconds)
  {
    var d := Decimal.NatToDigits(seconds);
    var s := d + "s";
    assert s[..|s| - 1] == d && s[|s| - 1] == 's';
    Decimal.NatToDigitsRoundTrip(seconds);
  }

  /** Only the first `s` goes: "12s34s" becomes "1234s", and parsing stops
      at the remaining `s`, giving 1234. */
  lemma OnlyFirstSuffixRemoved(a: string, b: string)
    requires |a| > 0 && Decimal.AllDigits(a) && Decimal.AllDigits(b)
    ensures JsString.RemoveFirst(a + "s" + b + "s", 's') == a + b + "s"
    ensures ParseDuration(a + "s" + b + "s") == Decimal.Num(Decimal.DigitsToNat(a + b))
  {
    Decimal.DigitsExclude(a, 's');
    JsString.RemoveFirstSplice(a, 's', b + "s");
    assert a + "s" + b + "s" == a + ['s'] + (b + "s");
    assert a + (b + "s") == (a + b) + "s";
    assert Decimal.AllDigits(a + b) by {
      forall i | 0 <= i < |a + b| ensures Decimal.IsDigit((a + b)[i]) {
        if i < |a| {
          assert (a + b)[i] == a[i];
        } else {
          assert (a + b)[i] == b[i - |a|];
        }
      }
    }
    Decimal.ParseIntStopsAtNonDigit(a + b, "s");
  }

  /** `getEpoch({identifier})` over the cached list `epochs`. */
  function GetEpoch(epochs: seq<Epoch>, identifier: string): (r: Result<EpochInfo, EpochError>)
    ensures r.Err? <==> forall i :: 0 <= i < |epochs| ==> epochs[i].identifier != identifier
    ensures r.Err? ==> r.error == NotFound(identifier)
    ensures r.Ok? ==>
              exists i :: 0 <= i < |epochs|
                          && epochs[i].identifier == identifier
                          && (forall j :: 0 <= j < i ==> epochs[j].identifier != identifier)
                          && r.value.duration == ParseDuration(epochs[i].duration)
  {
    match FirstMatch(epochs, identifier)
    case None => Err(NotFound(identifier))
    case Some(i) => Ok(EpochInfo(ParseDuration(epochs[i].duration)))
  }

  /** Earlier epochs with the same identifier shadow later ones. */
  lemma GetEpochFirstWins(epochs: seq<Epoch>, i: nat)
    requires i < |epochs|
    requires forall j :: 0 <= j < i ==> epochs[j].identifier != epochs[i].identifier
    ensures GetEpoch(epochs, epochs[i].identifier)
            == Ok(EpochInfo(ParseDuration(epochs[i].duration)))
  {
    var r := FirstMatch(epochs, epochs[i].identifier);
    assert r.Some?;
    assert r.value == i;
  }

  lemma TwoWeeksDuration()
    ensures ParseDuration("1209600s") == Decimal.Num(1209600)
  {
    assert Decimal.NatToDigits(1209600) + "s" == "1209600s";
    DurationRoundTrip(1209600);
  }

  lemma OneDayDuration()
    ensures ParseDuration("86400s") == Decimal.Num(86400)
  {
    assert Decimal.NatToDigits(86400) + "s" == "86400s";
    DurationRoundTrip(86400);
  }

  /** The identifiers "a", "b" and "z" are pairwise different. */
  lemma ExampleIdentifiersDiffer()
    ensures "a" != "b" && "z" != "a" && "z" != "b"
  {
    assert "a"[0] != "b"[0] && "z"[0] != "a"[0] && "z"[0] != "b"[0];
  }

  /** The example list of two epochs. */
  function ExampleEpochs(): seq<Epoch>
  {
    [Epoch("a", "1209600s"), Epoch("b", "86400s")]
  }

  /** In the example list, "a" has a two-week duration. */
  lemma LookupTwoWeekEpoch()
    ensures GetEpoch(ExampleEpochs(), "a") == Ok(EpochInfo(Decimal.Num(1209600)))
  {
    GetEpochFirstWins(ExampleEpochs(), 0);
    TwoWeeksDuration();
  }

  /** In the example list, "b" has a one-day duration. */
  lemma LookupOneDayEpoch()
    ensures GetEpoch(ExampleEpochs(), "b") == Ok(EpochInfo(Decimal.Num(86400)))
  {
    ExampleIdentifiersDiffer();
    GetEpochFirstWins(ExampleEpochs(), 1);
    OneDayDuration();
  }

  /** In the example list, "z" is not found. */
  lemma LookupMissingEpoch()
    ensures GetEpoch(ExampleEpochs(), "z") == Err(NotFound("z"))
  {
    ExampleIdentifiersDiffer();
  }
}
