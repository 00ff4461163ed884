/**
 * A telemetry sample as the device sends it, the all-zero reading used for
 * offline devices, and the rule that derives an RTU id from a sample.
 */
module Readings {
  import opened Wrappers
  import opened Text

  /** The five sub-meter channels, each of which is also a document collection. */
  datatype LoadName = Main | AirCon | Lighting | Plug | Other

  /** The order in which both save paths visit the load categories. */
  const AllLoads: seq<LoadName> := [Main, AirCon, Lighting, Plug, Other]

  /** Every load category is visited. */
  lemma AllLoadsComplete()
    ensures forall l: LoadName :: l in AllLoads
  {
    forall l: LoadName
      ensures l in AllLoads
    {
      match l
      case Main => assert AllLoads[0] == l;
      case AirCon => assert AllLoads[1] == l;
      case Lighting => assert AllLoads[2] == l;
      case Plug => assert AllLoads[3] == l;
      case Other => assert AllLoads[4] == l;
    }
  }

  /** One load category of a sample; a field the sample omits is `None`. */
  datatype Load = Load(
    phaseCurrent: Option<seq<real>>,
    phaseVoltage: Option<seq<real>>,
    activePower: Option<real>,
    reactivePower: Option<real>,
    powerFactor: Option<real>,
    energyMonthly: Option<real>,
    energyYearly: Option<real>)

  datatype Alarm = Alarm(kind: string, status: bool)

  /**
   * A decoded frame: the `Customer` tag ("<name>,<rtuId>,<lat>,<lon>"), the load
   * categories it carries (a category is in `loads` exactly when the frame has a
   * truthy value for it) and the alarm block.
   */
  datatype Reading = Reading(customer: Option<string>, loads: map<LoadName, Load>, alarm: Option<Alarm>)

  /** A sample as it sits in a buffer: the reading plus the arrival time in epoch milliseconds. */
  datatype Entry = Entry(reading: Reading, time: int)

  const DefaultRtuId: string := "RTU0001"
  const UnknownCustomer: string := "Unknown"

  const ZeroPhases: seq<real> := [0.0, 0.0, 0.0]

  /** The Main entry of the zero template, the only one with reactive power and power factor. */
  const ZeroMainLoad: Load :=
    Load(Some(ZeroPhases), Some(ZeroPhases), Some(0.0), Some(0.0), Some(0.0), Some(0.0), Some(0.0))

  /** The AirCon, Lighting, Plug and Other entries of the zero template. */
  const ZeroSubLoad: Load :=
    Load(Some(ZeroPhases), Some(ZeroPhases), Some(0.0), None, None, Some(0.0), Some(0.0))

  const ZeroLoads: map<LoadName, Load> :=
    map[Main := ZeroMainLoad, AirCon := ZeroSubLoad, Lighting := ZeroSubLoad,
        Plug := ZeroSubLoad, Other := ZeroSubLoad]

  const ZeroAlarm: Alarm := Alarm("OverCurrent", false)

  /** The canonical reading of an offline device, tagged "<customerName>,<rtuId>,0,0". */
  function CreateZeroData(rtuId: string, customerName: string): (r: Reading)
    ensures forall l :: l in AllLoads <==> l in r.loads
    ensures forall l :: l in r.loads ==> IsZeroLoad(r.loads[l])
    ensures r.alarm == Some(Alarm("OverCurrent", false))
  {
    Reading(Some(customerName + "," + rtuId + ",0,0"), ZeroLoads, Some(ZeroAlarm))
  }

  /** What an RTU id in the registry looks like: non-empty, not the placeholder, comma-free, trimmed. */
  predicate ValidRtuId(id: string) {
    id != "" && id != "ID" && ',' !in id && IsTrimmed(id)
  }

  /**
   * `extractRTUId`: the trimmed second comma-separated field of `Customer`, or
   * the default id when `Customer` is missing or empty, has no second field, or
   * that field trims to "" or to the placeholder "ID".
   */
  function ExtractRTUId(data: Reading): (r: string)
    ensures ValidRtuId(r)
  {
    if data.customer.None? || data.customer.value == "" then DefaultRtuId
    else
      var parts := Split(data.customer.value, ',');
      if |parts| > 1 && Trim(parts[1]) != "" then
        var rtuId := Trim(parts[1]);
        if rtuId == "ID" then DefaultRtuId
        else
          assert ',' !in parts[1];
          rtuId
      else DefaultRtuId
  }

  /**
   * `Customer?.split(",")[0] || "Unknown"`: the first field of the customer tag,
   * or "Unknown" when there is no tag or that field is empty.
   */
  function CustomerName(data: Reading): (r: string)
    ensures r != "" && ',' !in r
    ensures r == UnknownCustomer || (data.customer.Some? && r == Split(data.customer.value, ',')[0])
    ensures data.customer.Some? && Split(data.customer.value, ',')[0] != "" ==> r == Split(data.customer.value, ',')[0]
  {
    match data.customer
    case None => UnknownCustomer
    case Some(c) =>
      var first := Split(c, ',')[0];
      if first == "" then UnknownCustomer else first
  }

  /** The customer tag of a zero reading splits back into its four fields. */
  lemma ZeroTagFields(rtuId: string, customerName: string)
    requires ',' !in rtuId && ',' !in customerName
    ensures Split(CreateZeroData(rtuId, customerName).customer.value, ',') == [customerName, rtuId, "0", "0"]
  {
    var parts := [customerName, rtuId, "0", "0"];
    assert Join(parts[3..], ',') == "0";
    assert Join(parts[2..], ',') == "0,0";
    assert Join(parts[1..], ',') == rtuId + ",0,0";
    assert Join(parts, ',') == customerName + "," + rtuId + ",0,0";
    SplitJoin(parts, ',');
  }

  /**
   * Zero-fill round trip: the RTU id of the zero reading built for a valid id is
   * that id, and its customer name is the name it was built with.
   */
  lemma ZeroRoundTrip(rtuId: string, customerName: string)
    requires ValidRtuId(rtuId) && ',' !in customerName
    ensures ExtractRTUId(CreateZeroData(rtuId, customerName)) == rtuId
    ensures customerName != "" ==> CustomerName(CreateZeroData(rtuId, customerName)) == customerName
    ensures customerName == "" ==> CustomerName(CreateZeroData(rtuId, customerName)) == UnknownCustomer
  {
    ZeroTagFields(rtuId, customerName);
    TrimTrimmed(rtuId);
  }

  /** Every numeric field a load carries is zero. */
  predicate IsZeroLoad(ld: Load) {
    && (ld.phaseCurrent.Some? ==> forall i :: 0 <= i < |ld.phaseCurrent.value| ==> ld.phaseCurrent.value[i] == 0.0)
    && (ld.phaseVoltage.Some? ==> forall i :: 0 <= i < |ld.phaseVoltage.value| ==> ld.phaseVoltage.value[i] == 0.0)
    && ld.activePower.GetOr(0.0) == 0.0
    && ld.reactivePower.GetOr(0.0) == 0.0
    && ld.powerFactor.GetOr(0.0) == 0.0
    && ld.energyMonthly.GetOr(0.0) == 0.0
    && ld.energyYearly.GetOr(0.0) == 0.0
  }

  /**
   * The id rule on a tag assembled from comma-free fields: the trimmed second
   * field, unless it trims to "" or to the placeholder "ID".
   */
  lemma ExtractRTUIdOfFields(fields: seq<string>, loads: map<LoadName, Load>, alarm: Option<Alarm>)
    requires |fields| > 1 && forall i :: 0 <= i < |fields| ==> ',' !in fields[i]
    ensures var id := Trim(fields[1]);
      ExtractRTUId(Reading(Some(Join(fields, ',')), loads, alarm)) == if id == "" || id == "ID" then DefaultRtuId else id
  {
    SplitJoin(fields, ',');
    assert Join(fields, ',') == fields[0] + [','] + Join(fields[1..], ',');
  }

  /**
   * The id rule's defaults: a missing or empty customer tag, or a tag with no
   * comma and so no second field, yields the default id.
   */
  lemma ExtractRTUIdDefault(d: Reading)
    requires d.customer.None? || d.customer.value == "" || ',' !in d.customer.value
    ensures ExtractRTUId(d) == DefaultRtuId
  {
    if d.customer.Some? && d.customer.value != "" {
      SplitNoSeparator(d.customer.value, ',');
    }
  }
}
