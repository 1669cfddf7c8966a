/** Which top-level keys belong to which eras, era by era. */
module Eras {
  import opened Comparisons

  const SHELLEY_ON := {"Shelley", "Allegra", "Mary", "Alonzo", "Babbage", "Conway", "Dijkstra"}

  lemma EraIndices()
    ensures EraIndex("Byron") == 0 && EraIndex("Shelley") == 1 && EraIndex("Allegra") == 2 && EraIndex("Mary") == 3
    ensures EraIndex("Alonzo") == 4 && EraIndex("Babbage") == 5 && EraIndex("Conway") == 6 && EraIndex("Dijkstra") == 7
  {
    assert |"Byron"| == 5 && |"Mary"| == 4 && |"Dijkstra"| == 8;
    assert |"Alonzo"| == 6 && |"Conway"| == 6 && "Alonzo"[0] != "Conway"[0];
    assert |"Shelley"| == 7 && |"Allegra"| == 7 && |"Babbage"| == 7;
    assert "Shelley"[0] == 'S' && "Allegra"[0] == 'A' && "Babbage"[0] == 'B';
  }

  /** Names outside the list have no index. */
  lemma UnknownEra(era: string)
    requires era != "Byron" && era !in SHELLEY_ON
    ensures EraIndex(era) == -1
  {
  }

  lemma FromShelley(era: string)
    ensures EraIndex(era) >= 1 <==> era in SHELLEY_ON
    ensures EraIndex(era) == 0 <==> era == "Byron"
    ensures EraIndex(era) >= 4 <==> era in {"Alonzo", "Babbage", "Conway", "Dijkstra"}
    ensures EraIndex(era) >= 6 <==> era in {"Conway", "Dijkstra"}
    ensures 1 <= EraIndex(era) <= 5 <==> era in {"Shelley", "Allegra", "Mary", "Alonzo", "Babbage"}
  {
    EraIndices();
    if era == "Byron" || era in SHELLEY_ON {
    } else {
      UnknownEra(era);
    }
  }

  const BYRON_KEYS := ["utxo", "byronDelegation", "byronProtocolParams", "byronUpdateEpoch", "lastSlot"]

  const SHELLEY_KEYS := [
    "activeStake", "commonProtocolParams", "deposits", "epochFees", "eta", "expectedBlocks", "poolDistribution",
    "protocolParams", "reserves", "rupdApplied", "rupdNext", "snapshots", "totalPools", "totalStake", "treasury"]

  lemma ByronKeys(k: string, era: string)
    requires k in BYRON_KEYS
    ensures Applicable(k, era) <==> era == "Byron"
  {
    assert k in BYRON_ONLY_KEYS;
    assert k[0] != 'c' && k[0] != 'i' && k[0] != 'e';
    NotGated(k);
    FromShelley(era);
  }

  lemma NotGated(k: string)
    requires k != "" && k[0] != 'c' && k[0] != 'i' && k[0] != 'e'
    ensures k != "conwayGov" && k != "instantaneousRewards" && k != "epochNonce" && k != "eraProtocolParams"
  {
  }

  lemma ShelleyKeys(k: string, era: string)
    requires k in SHELLEY_KEYS
    ensures Applicable(k, era) <==> era in SHELLEY_ON
  {
    assert k in SHELLEY_ONWARD_KEYS;
    ShelleyKeyApart(k);
    FromShelley(era);
  }

  lemma ShelleyKeyApart(k: string)
    requires k in SHELLEY_KEYS
    ensures k !in BYRON_ONLY_KEYS && k != "conwayGov" && k != "instantaneousRewards" && k != "epochNonce"
  {
    assert |k| != 4 && |k| != 15 && |k| != 19;
    assert |k| == 16 ==> k[0] != 'b';
    assert |k| == 8 ==> k[0] != 'l';
    assert |k| == 9 ==> k[0] != 'c';
    assert |k| == 20 ==> k[0] != 'i';
    assert |k| == 10 ==> k[0] != 'e';
    assert |"utxo"| == 4 && |"byronDelegation"| == 15 && |"byronProtocolParams"| == 19;
    assert |"byronUpdateEpoch"| == 16 && |"lastSlot"| == 8 && |"conwayGov"| == 9;
    assert |"instantaneousRewards"| == 20 && |"epochNonce"| == 10;
  }

  /** Keys with a first or last era of their own. */
  lemma GatedKeys(era: string)
    ensures Applicable("conwayGov", era) <==> era in {"Conway", "Dijkstra"}
    ensures Applicable("instantaneousRewards", era) <==> era in {"Shelley", "Allegra", "Mary", "Alonzo", "Babbage"}
    ensures Applicable("epochNonce", era) <==> era in SHELLEY_ON
    ensures Applicable("eraProtocolParams", era) <==> era in {"Alonzo", "Babbage", "Conway", "Dijkstra"}
  {
    FromShelley(era);
    assert |"conwayGov"| == 9 && |"instantaneousRewards"| == 20 && |"epochNonce"| == 10;
    EraParamsApart("eraProtocolParams");
  }

  lemma EraParamsApart(k: string)
    requires k == "eraProtocolParams"
    ensures k !in BYRON_ONLY_KEYS && k !in SHELLEY_ONWARD_KEYS
    ensures k != "conwayGov" && k != "instantaneousRewards" && k != "epochNonce"
  {
    assert |k| == 17;
    assert forall x | x in BYRON_ONLY_KEYS + SHELLEY_ONWARD_KEYS :: |x| != 17;
    assert |"conwayGov"| == 9 && |"instantaneousRewards"| == 20 && |"epochNonce"| == 10;
  }

  /** All other keys are expected everywhere. */
  lemma OtherKeys(k: string, era: string)
    requires k !in BYRON_KEYS && k !in SHELLEY_KEYS
    requires k !in ["conwayGov", "instantaneousRewards", "epochNonce", "eraProtocolParams"]
    ensures Applicable(k, era)
  {
    assert k in BYRON_ONLY_KEYS ==> k in BYRON_KEYS;
    assert k in SHELLEY_ONWARD_KEYS ==> k in SHELLEY_KEYS;
  }
}
