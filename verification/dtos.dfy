/** The request bodies of `POST /repetitions/:topicId` and `PATCH /repetitions/:id` and the
    schemas that validate them before the service sees them. */
module RepetitionDtos {
  import opened Results

  /** A period in milliseconds, as accepted by the schemas: an integer of at least 1. */
  type Period = i: int | 1 <= i witness 1

  /** A parsed JSON value. Numbers are exact rationals; arrays and objects are lumped
      together since the schemas reject both wherever they appear. */
  datatype Json = JNumber(n: real) | JBool(b: bool) | JString(s: string) | JNull | JComposite

  /** A request body: the members of the JSON object. A missing member is `undefined`. */
  type Body = map<string, Json>

  datatype CreateRepetitionDto = CreateRepetitionDto(repeatCount: nat, interval: Period)

  datatype UpdateRepetitionDto = UpdateRepetitionDto(
    repeatCount: Option<nat>,
    interval: Option<Period>,
    isActive: Option<bool>)

  /** A number that `z.number().int().min(lo)` accepts. */
  predicate IsIntAtLeast(v: Json, lo: int) {
    v.JNumber? && v.n.Floor as real == v.n && v.n.Floor >= lo
  }

  /** `z.number().int().min(lo)` applied to a present member. */
  function CheckInt(v: Json, lo: int): (r: Option<int>)
    ensures r.Some? <==> IsIntAtLeast(v, lo)
    ensures r.Some? ==> r.value as real == v.n && r.value >= lo
  {
    if v.JNumber? && v.n.Floor as real == v.n && v.n.Floor >= lo then Some(v.n.Floor) else None
  }

  /** `createRepetitionSchema`: both members are required; `repeatCount` is an integer of at
      least 0 and `interval` an integer of at least 1. A failure lists the offending members
      in schema order. */
  function ValidateCreate(body: Body): (r: Result<CreateRepetitionDto, seq<string>>)
    ensures r.Ok? <==>
      && "repeatCount" in body && IsIntAtLeast(body["repeatCount"], 0)
      && "interval" in body && IsIntAtLeast(body["interval"], 1)
    ensures r.Ok? ==>
      r.value.repeatCount as real == body["repeatCount"].n && r.value.interval as real == body["interval"].n
    ensures r.Err? ==>
      && ("repeatCount" in r.error <==> !("repeatCount" in body && IsIntAtLeast(body["repeatCount"], 0)))
      && ("interval" in r.error <==> !("interval" in body && IsIntAtLeast(body["interval"], 1)))
  {
    var count := if "repeatCount" in body then CheckInt(body["repeatCount"], 0) else None;
    var period := if "interval" in body then CheckInt(body["interval"], 1) else None;
    if count.Some? && period.Some? then
      Ok(CreateRepetitionDto(count.value, period.value))
    else
      Err((if count.None? then ["repeatCount"] else []) + (if period.None? then ["interval"] else []))
  }

  /** An `.optional()` member: absent is accepted as `undefined`; present must pass `check`. */
  function CheckOptionalInt(body: Body, key: string, lo: int): (r: Result<Option<int>, string>)
    ensures r.Ok? <==> (key !in body || IsIntAtLeast(body[key], lo))
    ensures r.Ok? && key !in body ==> r.value.None?
    ensures r.Ok? && key in body ==> r.value.Some? && r.value.value as real == body[key].n && r.value.value >= lo
  {
    if key !in body then Ok(None)
    else
      var v := CheckInt(body[key], lo);
      if v.Some? then Ok(Some(v.value)) else Err(key)
  }

  /** `updateRepetitionSchema`: every member is optional, so `{}` is valid; a present
      `repeatCount` is an integer of at least 0, a present `interval` an integer of at
      least 1 and a present `isActive` a boolean. `null` is not `undefined` and is rejected. */
  function ValidateUpdate(body: Body): (r: Result<UpdateRepetitionDto, seq<string>>)
    ensures r.Ok? <==>
      && ("repeatCount" in body ==> IsIntAtLeast(body["repeatCount"], 0))
      && ("interval" in body ==> IsIntAtLeast(body["interval"], 1))
      && ("isActive" in body ==> body["isActive"].JBool?)
    ensures r.Ok? ==>
      && (r.value.repeatCount.Some? <==> "repeatCount" in body)
      && (r.value.interval.Some? <==> "interval" in body)
      && (r.value.isActive.Some? <==> "isActive" in body)
      && (r.value.repeatCount.Some? ==> r.value.repeatCount.value as real == body["repeatCount"].n)
      && (r.value.interval.Some? ==> r.value.interval.value as real == body["interval"].n)
      && (r.value.isActive.Some? ==> r.value.isActive.value == body["isActive"].b)
    ensures r.Err? ==> |r.error| > 0
  {
    var count := CheckOptionalInt(body, "repeatCount", 0);
    var period := CheckOptionalInt(body, "interval", 1);
    var active: Result<Option<bool>, string> :=
      if "isActive" !in body then Ok(None)
      else if body["isActive"].JBool? then Ok(Some(body["isActive"].b))
      else Err("isActive");
    if count.Ok? && period.Ok? && active.Ok? then
      var c := if count.value.Some? then Some(count.value.value as nat) else None;
      var p := if period.value.Some? then Some(period.value.value as Period) else None;
      Ok(UpdateRepetitionDto(c, p, active.value))
    else
      Err((if count.Err? then [count.error] else [])
        + (if period.Err? then [period.error] else [])
        + (if active.Err? then [active.error] else []))
  }

  // ---------------------------------------------------------------- round trips

  /** The body a client sends for a create request. */
  function CreateBody(dto: CreateRepetitionDto): Body {
    map["repeatCount" := JNumber(dto.repeatCount as real), "interval" := JNumber(dto.interval as real)]
  }

  /** The body a client sends for an update request: only the supplied members. */
  function UpdateBody(dto: UpdateRepetitionDto): Body {
    var b0: Body := map[];
    var b1 := if dto.repeatCount.Some? then b0["repeatCount" := JNumber(dto.repeatCount.value as real)] else b0;
    var b2 := if dto.interval.Some? then b1["interval" := JNumber(dto.interval.value as real)] else b1;
    if dto.isActive.Some? then b2["isActive" := JBool(dto.isActive.value)] else b2
  }

  /** Every create request the schema can produce is accepted back unchanged. */
  lemma ValidateCreateRoundTrip(dto: CreateRepetitionDto)
    ensures ValidateCreate(CreateBody(dto)) == Ok(dto)
  {
  }

  /** Every update request the schema can produce, with any subset of members, is accepted
      back unchanged. */
  lemma ValidateUpdateRoundTrip(dto: UpdateRepetitionDto)
    ensures ValidateUpdate(UpdateBody(dto)) == Ok(dto)
  {
  }
}
