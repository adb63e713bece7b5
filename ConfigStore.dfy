/**
 * The persisted affinity configuration and its JSON object form
 * (CPUAffinity::toJson and CPUAffinity::fromJson).
 */
module ConfigStore {
  import opened Wrappers
  import opened Decimal
  import opened Json

  /** One process and how many logical processors it should be restricted to. */
  datatype AffinityConfig = AffinityConfig(processName: string, pid: Int64, assignedCores: Int32)

  const NameKey: string := "processName"
  const PidKey: string := "pid"
  const CoresKey: string := "assignedCores"

  /**
   * The three-key object written to a config file; the PID travels as the
   * decimal text of the number, not as a JSON number.
   */
  function ToJson(c: AffinityConfig): (o: JsonObject)
    ensures o.Keys == {NameKey, PidKey, CoresKey}
    ensures o[NameKey] == JString(c.processName)
    ensures o[PidKey].JString?
    ensures o[CoresKey] == JNumber(c.assignedCores as real)
  {
    map[NameKey := JString(c.processName),
        PidKey := JString(IntToDecimal(c.pid)),
        CoresKey := JNumber(c.assignedCores as real)]
  }

  /**
   * The written PID text: '-' exactly for negative PIDs, then digits only, and
   * QString::toLongLong reads it back as the PID.
   */
  lemma ToJsonPid(c: AffinityConfig)
    ensures var t := ToJson(c)[PidKey].s;
      && t != []
      && ((t[0] == '-') <==> c.pid < 0)
      && (t[0] == '-' ==> AllDigits(t[1..]))
      && (t[0] != '-' ==> AllDigits(t))
      && ParseInt64(t) == Some(c.pid)
  {
    Int64RoundTrip(c.pid);
  }

  /** The PID a config object denotes: its decimal text, or 0 when there is none. */
  function PidOf(o: JsonObject): (pid: Int64)
    ensures pid != 0 ==> Value(o, PidKey).JString?
  {
    ParseInt64(ToStringOr(Value(o, PidKey))).GetOr(0)
  }

  /**
   * Reads a configuration back; the flag (the source's `*ok`) is always set. A
   * core count that is missing, not a whole int, or below 1 becomes 1.
   */
  function FromJson(o: JsonObject): (r: (AffinityConfig, bool))
    ensures r.1
    ensures r.0.assignedCores >= 1
    ensures r.0.processName == ToStringOr(Value(o, NameKey))
    ensures r.0.pid == PidOf(o)
  {
    var cores := ToIntOr(Value(o, CoresKey), 0);
    (AffinityConfig(ToStringOr(Value(o, NameKey)), PidOf(o), if cores < 1 then 1 else cores), true)
  }

  /** The core count read is the stored whole number when that is at least 1, and exactly 1 otherwise. */
  lemma FromJsonCores(o: JsonObject)
    ensures var v := Value(o, CoresKey);
      if v.JNumber? && IsInt32Number(v.x) && v.x >= 1.0
      then FromJson(o).0.assignedCores == v.x.Floor
      else FromJson(o).0.assignedCores == 1
  {
  }

  /** A PID that is absent, not a string, not decimal text, or outside qint64 reads as 0. */
  lemma FromJsonPidDefaults(o: JsonObject)
    requires || PidKey !in o
             || !o[PidKey].JString?
             || DecimalValue(o[PidKey].s).None?
             || !(MinInt64 <= DecimalValue(o[PidKey].s).value <= MaxInt64)
    ensures FromJson(o).0.pid == 0
  {
  }

  /** A file without a core count loads with one core. */
  lemma MissingCoresIsOne(o: JsonObject)
    requires CoresKey !in o
    ensures FromJson(o).0.assignedCores == 1
  {
  }

  /** Saving then loading restores every configuration whose core count is at least 1. */
  lemma ConfigRoundTrip(c: AffinityConfig)
    requires c.assignedCores >= 1
    ensures FromJson(ToJson(c)) == (c, true)
  {
    SaveLoadKeepsIdentity(c);
  }

  /**
   * For any configuration, saving then loading keeps the name and the PID exactly
   * and raises a core count below 1 to 1.
   */
  lemma SaveLoadKeepsIdentity(c: AffinityConfig)
    ensures var d := FromJson(ToJson(c)).0;
      && d.processName == c.processName
      && d.pid == c.pid
      && d.assignedCores == (if c.assignedCores < 1 then 1 else c.assignedCores)
  {
    var o := ToJson(c);
    PidReadsBack(c);
    assert ToIntOr(Value(o, CoresKey), 0) == c.assignedCores by {
      assert IsInt32Number(c.assignedCores as real);
    }
  }

  /** The PID of a written object is the configuration's PID. */
  lemma PidReadsBack(c: AffinityConfig)
    ensures PidOf(ToJson(c)) == c.pid
  {
    var o := ToJson(c);
    assert ToStringOr(Value(o, PidKey)) == IntToDecimal(c.pid);
    Int64RoundTrip(c.pid);
  }

  /** Keys other than the three of the format do not influence what is read. */
  lemma FromJsonIgnoresOtherKeys(o: JsonObject, extra: JsonObject)
    requires NameKey !in extra && PidKey !in extra && CoresKey !in extra
    ensures FromJson(o + extra) == FromJson(o)
  {
    assert Value(o + extra, NameKey) == Value(o, NameKey);
    assert Value(o + extra, PidKey) == Value(o, PidKey);
    assert Value(o + extra, CoresKey) == Value(o, CoresKey);
  }
}
