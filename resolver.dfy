/** The resolver half of the service (getMxAndIp): choose the preferred mail
    exchange among the MX answers and look up its address. The two DNS calls
    are parameters of the model. */
module Resolver {
  import opened Results

  /** Message of the Error thrown when the MX query yields no record. */
  const NoMxRecordsMessage: string := "No MX records found"

  /** One MX answer: the mail-exchange host name and its preference value
      (a lower number is preferred). */
  datatype MxRecord = MxRecord(exchange: string, priority: nat)

  /** What getMxAndIp returns: the chosen exchange and its address. */
  datatype Resolution = Resolution(mxHost: string, ip: string)

  /** The MX query: given the (possibly undefined) domain, the records it
      yields (None when the answer is not an array) or the Error it throws. */
  type MxQuery = Option<string> -> Result<Option<seq<MxRecord>>>

  /** The address lookup: given a host name, its first address or the Error
      it throws. */
  type AddressLookup = string -> Result<string>

  /** The callback handed to `reduce`: it keeps `prev` only when its priority
      is strictly lower, so on a tie it takes `current`. */
  function Prefer(prev: MxRecord, current: MxRecord): (r: MxRecord)
    ensures r == prev || r == current
    ensures r.priority <= prev.priority && r.priority <= current.priority
    ensures prev.priority == current.priority ==> r == current
  {
    if prev.priority < current.priority then prev else current
  }

  /** `records.reduce(Prefer)` with no initial value: a left fold that starts
      from the first record and combines it with each later one in turn. */
  function PrimaryMx(records: seq<MxRecord>): (r: MxRecord)
    requires |records| > 0
    ensures r in records
    ensures forall x :: x in records ==> r.priority <= x.priority
  {
    if |records| == 1 then records[0]
    else Prefer(PrimaryMx(records[..|records| - 1]), records[|records| - 1])
  }

  /** Reference definition of the selection: position k holds a record of
      minimum priority, and every later record has a strictly greater one;
      that is, k is the last position of the minimum priority. */
  ghost predicate IsLastMinimum(records: seq<MxRecord>, k: int) {
    && 0 <= k < |records|
    && (forall j :: 0 <= j < |records| ==> records[k].priority <= records[j].priority)
    && (forall j :: k < j < |records| ==> records[k].priority < records[j].priority)
  }

  /** The position SelectionIsLastMinimum speaks of, found by induction. */
  lemma {:induction false} LastMinimumPosition(records: seq<MxRecord>) returns (k: int)
    requires |records| > 0
    ensures IsLastMinimum(records, k) && PrimaryMx(records) == records[k]
  {
    var n := |records| - 1;
    if n == 0 {
      k := 0;
    } else {
      var init := records[..n];
      var i := LastMinimumPosition(init);
      assert PrimaryMx(records) == Prefer(init[i], records[n]);
      if init[i].priority < records[n].priority {
        k := i;
      } else {
        k := n;
      }
      forall j | 0 <= j < n
        ensures records[j] == init[j]
      {
      }
    }
  }

  /** The reduce picks the record at the last position holding the minimum
      priority of the list. */
  lemma SelectionIsLastMinimum(records: seq<MxRecord>)
    requires |records| > 0
    ensures exists k :: IsLastMinimum(records, k) && PrimaryMx(records) == records[k]
  {
    var k := LastMinimumPosition(records);
  }

  /** The reference definition names one position. */
  lemma LastMinimumIsUnique(records: seq<MxRecord>, k1: int, k2: int)
    requires IsLastMinimum(records, k1) && IsLastMinimum(records, k2)
    ensures k1 == k2
  {
    var p1, p2 := records[k1].priority, records[k2].priority;
    assert p1 <= p2 && p2 <= p1;
    assert k1 < k2 ==> p1 < p2;
    assert k2 < k1 ==> p2 < p1;
  }

  /** A record appended after the others wins whenever its priority is no
      greater than every earlier one: in particular a later record tied at the
      minimum displaces an earlier one. */
  lemma {:induction false} LaterTieWins(records: seq<MxRecord>, last: MxRecord)
    requires forall r :: r in records ==> last.priority <= r.priority
    ensures PrimaryMx(records + [last]) == last
  {
    var all := records + [last];
    if |records| > 0 {
      assert all[..|all| - 1] == records;
    }
  }

  /** getMxAndIp: query MX, reject a missing or empty answer, take the
      preferred exchange, look it up, and return the exchange with its address.
      An Error thrown by either DNS call propagates unchanged. */
  function GetMxAndIp(domain: Option<string>, resolveMx: MxQuery, lookup: AddressLookup): (r: Result<Resolution>)
    ensures r.Ok? ==>
              && resolveMx(domain).Ok? && resolveMx(domain).value.Some? && |resolveMx(domain).value.value| > 0
              && r.value.mxHost == PrimaryMx(resolveMx(domain).value.value).exchange
              && lookup(r.value.mxHost) == Ok(r.value.ip)
    ensures resolveMx(domain).Ok? && (resolveMx(domain).value.None? || resolveMx(domain).value.value == []) ==>
              r == Err(NoMxRecordsMessage)
  {
    var mxRecords :- resolveMx(domain);
    if mxRecords.None? || |mxRecords.value| == 0 then
      Err(NoMxRecordsMessage)
    else
      var primary := PrimaryMx(mxRecords.value);
      var ip :- lookup(primary.exchange);
      Ok(Resolution(primary.exchange, ip))
  }

  /** A missing or empty MX answer fails with the fixed message whatever the
      address lookup would have answered: no lookup takes place. */
  lemma NoMxRecordsFails(domain: Option<string>, resolveMx: MxQuery)
    requires resolveMx(domain) == Ok(None) || resolveMx(domain) == Ok(Some([]))
    ensures forall lookup: AddressLookup :: GetMxAndIp(domain, resolveMx, lookup) == Err(NoMxRecordsMessage)
  {
  }

  /** On success, mxHost is the exchange of the last minimum-priority record of
      the answer, and ip is what the lookup gave for that very host. */
  lemma ResolutionIsOfPreferredExchange(domain: Option<string>, resolveMx: MxQuery, lookup: AddressLookup)
    requires GetMxAndIp(domain, resolveMx, lookup).Ok?
    ensures resolveMx(domain).Ok? && resolveMx(domain).value.Some?
    ensures var records := resolveMx(domain).value.value;
            var res := GetMxAndIp(domain, resolveMx, lookup).value;
            && |records| > 0
            && (exists k :: IsLastMinimum(records, k) && records[k].exchange == res.mxHost)
            && lookup(res.mxHost) == Ok(res.ip)
  {
    var records := resolveMx(domain).value.value;
    SelectionIsLastMinimum(records);
  }

  /** Every failure carries the message of one stage: the MX query's Error,
      the fixed no-records message, or the lookup's Error for the chosen host. */
  lemma FailureComesFromOneStage(domain: Option<string>, resolveMx: MxQuery, lookup: AddressLookup)
    requires GetMxAndIp(domain, resolveMx, lookup).Err?
    ensures var m := GetMxAndIp(domain, resolveMx, lookup).message;
            || resolveMx(domain) == Err(m)
            || (m == NoMxRecordsMessage && resolveMx(domain).Ok?
                && (resolveMx(domain).value.None? || resolveMx(domain).value.value == []))
            || (&& resolveMx(domain).Ok? && resolveMx(domain).value.Some?
                && |resolveMx(domain).value.value| > 0
                && lookup(PrimaryMx(resolveMx(domain).value.value).exchange) == Err(m))
  {
  }
}
