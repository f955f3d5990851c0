/** Run settings and their bounds (TraceConfig of controller.py). */
module Settings {
  import opened Model
  import opened Stats
  import opened Wrappers

  datatype TraceConfig = TraceConfig(
    protocol: Protocol, maxHops: nat, baselineRounds: nat, temporalSamples: nat, canaryFlows: nat,
    globalCap: bool, chunkSize: nat, adaptiveBatchSamples: nat, tailGuardHops: nat,
    minDetectable: real, missProbability: real, maxProbes: nat,
    destinationPort: nat, sourcePort: Option<nat>, payloadSize: nat)
  {
    /** The bounds that refuse a configuration outside them. */
    predicate Valid() {
      && 1 <= maxHops <= 255 && 1 <= baselineRounds <= 20 && 2 <= temporalSamples <= 20 && canaryFlows <= 20
      && 1 <= chunkSize <= 64 && 1 <= adaptiveBatchSamples <= 32 && tailGuardHops <= 32
      && 1 <= maxProbes <= 100_000
      && 1 <= destinationPort <= 65535 && (sourcePort.Some? ==> 1 <= sourcePort.value <= 65535)
      && 16 <= payloadSize <= 1400
      && IsProbability(minDetectable) && IsProbability(missProbability)
    }

    function Required(): nat
      requires Valid()
    {
      RequiredSamples(minDetectable, missProbability).value
    }
  }
}
