/** The records that flow from the chain through the decoder into the database. */
module Records {
  import opened Wrappers
  import opened Decimal

  // A receipt log, with the address already lower-cased and topics and data as bytes.
  datatype Log = Log(address: string, topics: seq<seq<byte>>, data: seq<byte>)

  // A transaction receipt. Absent fields are the ones the ingester reads with a default.
  datatype Receipt = Receipt(status: Option<int>, gasUsed: Option<nat>, logs: seq<Log>)

  // A row of the raw_tx table, keyed by txHash.
  datatype RawTx = RawTx(
    txHash: string, blockNumber: nat, blockTimestamp: int, txIndex: nat,
    fromAddr: string, toAddr: string, methodSig: seq<byte>, systemId: string,
    rawCalldata: seq<byte>, status: int, gasUsed: Option<nat>, gasPriceWei: Option<nat>)

  datatype ActionType =
    | HarvestStart
    | HarvestStop
    | HarvestCollect
    | HarvestLiquidate
    | OtherAction(name: string)

  datatype MetaValue =
    | MetaText(text: string)
    | MetaInt(number: nat)
    | MetaList(items: seq<MetaValue>)

  // A decoded action, and a row of the kami_action table keyed by RowId(txHash, subIndex).
  datatype Action = Action(
    txHash: string, subIndex: nat, blockNumber: nat, blockTimestamp: int,
    actionType: ActionType, systemId: string, fromAddr: string, status: int,
    kamiId: Option<string>, targetKamiId: Option<string>, nodeId: Option<string>,
    amount: Option<string>, itemIndex: Option<nat>, harvestId: Option<string>,
    metadata: map<string, MetaValue>)
  {
    function Id(): string {
      RowId(txHash, subIndex)
    }

    // The rows whose kami_id is left NULL by the decoder and stitched in afterwards.
    predicate Stitchable() {
      actionType.HarvestStop? || actionType.HarvestCollect?
    }
  }

  // keccak256(b"harvest" || kami_id) as a number: all that is used of it is injectivity.
  type HarvestHash = nat -> nat

  ghost predicate Injective(h: HarvestHash) {
    forall x, y :: h(x) == h(y) ==> x == y
  }

  // The harvest entity id of a kami, as stored in the harvest_id column.
  function HarvestIdOf(h: HarvestHash, kami: nat): string {
    ToDecimal(h(kami))
  }

  // The harvest_id column reads back as the hash of the kami: the entity whose value the World
  // writes when the harvest is drained.
  lemma HarvestIdReads(h: HarvestHash, kami: nat)
    ensures ParseDecimal(HarvestIdOf(h, kami)) == Some(h(kami)) && HarvestIdOf(h, kami) == ToDecimal(h(kami))
  {
    DecimalRoundTrip(h(kami));
  }

  lemma HarvestIdInjective(h: HarvestHash, k1: nat, k2: nat)
    requires Injective(h) && HarvestIdOf(h, k1) == HarvestIdOf(h, k2)
    ensures k1 == k2
  {
    DecimalInjective(h(k1), h(k2));
  }

  // `hid` is the harvest entity id of the kami whose decimal id is `kid`.
  predicate Pairs(h: HarvestHash, kid: string, hid: string) {
    var k := ParseDecimal(kid);
    k.Some? && hid == HarvestIdOf(h, k.value)
  }

  lemma PairsUnique(h: HarvestHash, kid1: string, kid2: string, hid: string)
    requires Injective(h) && Pairs(h, kid1, hid) && Pairs(h, kid2, hid)
    ensures ParseDecimal(kid1) == ParseDecimal(kid2)
  {
    HarvestIdInjective(h, ParseDecimal(kid1).value, ParseDecimal(kid2).value);
  }

  // A kami_id column value that is a number is written the way str() writes it.
  predicate Canonical(kid: string) {
    var k := ParseDecimal(kid);
    k.Some? ==> kid == ToDecimal(k.value)
  }
}
