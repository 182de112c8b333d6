/** Statistics points with their periodic emit-and-reset, and the retrying HTTP buffer
    (snitch/point_funcs.go, snitch/snitch_dynamic.go, snitch/custom_point.go, snitch/snitch.go).
    Values are reals; each operation is atomic. */
module SnitchStats {
  import opened Options
  import Flattening

  type Key = string

  datatype Point = Point(aggregation: string, keep: bool, nullable: bool, value: real, count: int, valNull: bool)

  datatype Message = Message(key: Key, value: real)

  predicate Known(aggregation: string) {
    aggregation == "avg" || aggregation == "sum" || aggregation == "max" || aggregation == "min"
  }

  // ---------- one point ----------

  function Accumulate(p: Point, v: real): Point {
    p.(value := p.value + v, count := p.count + 1, valNull := false)
  }

  function Overwrite(p: Point, v: real): Point {
    p.(value := v, valNull := false)
  }

  /** The aggregation switch of `Stats.ValueAdd`. */
  function AddTo(p: Point, v: real): Point {
    if p.aggregation == "max" then
      if p.value < v then Overwrite(p, v) else p
    else if p.aggregation == "min" then
      if p.valNull || p.value > v then Overwrite(p, v) else p
    else Accumulate(p, v)
  }

  /** What `Run` sends, after the `pre` closure. */
  function Emitted(p: Point): Option<real> {
    if !p.nullable && p.valNull then None
    else if p.aggregation == "avg" && p.value != 0.0 && p.count != 0 then Some(p.value / p.count as real)
    else Some(p.value)
  }

  /** What `Run` leaves behind, after the `post` closure. The guard there, a non-empty aggregation or no
      keepValue, holds of every point, because `getPoint` admits four aggregations only. */
  function AfterRun(p: Point): Point {
    p.(value := 0.0, count := 0, valNull := true)
  }

  class CustomPoint {
    const aggregation: string
    const keepValue: bool
    const sendOnNull: bool
    var value: real
    var valNull: bool
    var count: int

    ghost function Snapshot(): Point
      reads this
    {
      Point(aggregation, keepValue, sendOnNull, value, count, valNull)
    }

    constructor (aggregation: string, keep: bool, nullable: bool)
      ensures Snapshot() == Point(aggregation, keep, nullable, 0.0, 0, true)
    {
      this.aggregation, keepValue, sendOnNull := aggregation, keep, nullable;
      value, valNull, count := 0.0, true, 0;
    }

    method ValueAdd(v: real)
      modifies this
      ensures Snapshot() == Accumulate(old(Snapshot()), v)
    {
      value := value + v;
      count := count + 1;
      valNull := false;
    }

    method SetValue(v: real)
      modifies this
      ensures Snapshot() == Overwrite(old(Snapshot()), v)
    {
      value := v;
      valNull := false;
    }

    method SetValueNull()
      modifies this
      ensures Snapshot() == old(Snapshot()).(value := 0.0, valNull := true)
    {
      value := 0.0;
      valNull := true;
    }

    /** The aggregation switch of `Stats.ValueAdd`. */
    method Aggregate(v: real)
      modifies this
      ensures Snapshot() == AddTo(old(Snapshot()), v)
    {
      match aggregation {
        case "max" =>
          if value < v {
            SetValue(v);
          }
        case "min" =>
          if valNull {
            SetValue(v);
          } else if value > v {
            SetValue(v);
          }
        case _ =>
          ValueAdd(v);
      }
    }

    /** The `pre` closure. */
    method Pre() returns (send: bool)
      modifies this
      ensures send == Emitted(old(Snapshot())).Some?
      ensures send ==> value == Emitted(old(Snapshot())).value
      ensures !send ==> Snapshot() == old(Snapshot())
      ensures count == old(count)
    {
      if !sendOnNull && valNull {
        return false;
      }
      if aggregation == "avg" {
        if value != 0.0 && count != 0 {
          SetValue(value / count as real);
        }
      }
      send := true;
    }

    method Run() returns (message: Option<real>)
      requires Known(aggregation)
      modifies this
      ensures message == Emitted(old(Snapshot()))
      ensures Snapshot() == AfterRun(old(Snapshot()))
    {
      var send := Pre();
      message := if send then Some(value) else None;
      if aggregation != "" || !keepValue {
        SetValue(0.0);
        count := 0;
        SetValueNull();
      }
    }
  }

  // ---------- all points and the buffer, over any history ----------

  /** `Add` is a `Stats.ValueAdd` call (`cronOk`: its interval parses), `Tick` a cron run of one point, `Post`
      one tick of the HTTP client (`answered`: the request got a response). */
  datatype Event =
    | Add(key: Key, aggregation: string, cronOk: bool, keep: bool, nullable: bool, v: real)
    | Tick(key: Key)
    | Post(answered: bool)

  datatype State = State(points: map<Key, Point>, hBuffer: seq<Message>, answered: seq<Message>)

  predicate Creates(e: Event, key: Key) {
    e.Add? && e.key == key && e.cronOk && Known(e.aggregation)
  }

  /** `getPoint`: an existing point is returned whatever the other arguments say. */
  function GetPoint(points: map<Key, Point>, e: Event): Option<Point>
    requires e.Add?
  {
    if e.key in points then Some(points[e.key])
    else if Creates(e, e.key) then Some(Point(e.aggregation, e.keep, e.nullable, 0.0, 0, true))
    else None
  }

  function Apply(s: State, e: Event): State {
    match e
    case Add(key, _, _, _, _, v) =>
      var p := GetPoint(s.points, e);
      if p.None? then s else s.(points := s.points[key := AddTo(p.value, v)])
    case Tick(key) =>
      if key !in s.points then s else
      var m := Emitted(s.points[key]);
      s.(points := s.points[key := AfterRun(s.points[key])],
         hBuffer := s.hBuffer + if m.Some? then [Message(key, m.value)] else [])
    case Post(answered) =>
      if answered then s.(hBuffer := [], answered := s.answered + s.hBuffer) else s
  }

  function Run(events: seq<Event>): State {
    if events == [] then State(map[], [], []) else Apply(Run(events[..|events| - 1]), events[|events| - 1])
  }

  // ---------- what the history says ----------

  /** The call that created the point of `key`. */
  function Creator(events: seq<Event>, key: Key): (r: Option<Event>)
    ensures r.Some? ==> r.value.Add? && Known(r.value.aggregation)
  {
    if events == [] then None
    else
      var before, e := Creator(events[..|events| - 1], key), events[|events| - 1];
      if before.Some? then before else if Creates(e, key) then Some(e) else None
  }

  predicate Counts(events: seq<Event>, key: Key)
    requires events != []
  {
    var e := events[|events| - 1];
    e.Add? && e.key == key && Creator(events, key).Some?
  }

  /** The values accepted for `key` since its last run. */
  function Window(events: seq<Event>, key: Key): seq<real> {
    if events == [] then []
    else
      var before, e := Window(events[..|events| - 1], key), events[|events| - 1];
      if e == Tick(key) then [] else if Counts(events, key) then before + [e.v] else before
  }

  /** Everything ever accepted for `key`. */
  function TotalAdded(events: seq<Event>, key: Key): real {
    if events == [] then 0.0
    else TotalAdded(events[..|events| - 1], key) + if Counts(events, key) then events[|events| - 1].v else 0.0
  }

  function SumOf(s: seq<real>): real {
    if s == [] then 0.0 else SumOf(s[..|s| - 1]) + s[|s| - 1]
  }

  /** `x` is the least of `s`, or 0 when there is none. */
  ghost predicate IsMin(x: real, s: seq<real>) {
    if s == [] then x == 0.0 else x in s && forall i :: 0 <= i < |s| ==> x <= s[i]
  }

  ghost predicate IsMaxWithZero(x: real, s: seq<real>) {
    (x == 0.0 || x in s) && x >= 0.0 && forall i :: 0 <= i < |s| ==> s[i] <= x
  }

  /** `x` is what the aggregation means for the values `s` of one interval. */
  ghost predicate Means(aggregation: string, x: real, s: seq<real>) {
    match aggregation
    case "sum" => x == SumOf(s)
    case "avg" => x * |s| as real == SumOf(s) && (s == [] ==> x == 0.0)
    case "min" => IsMin(x, s)
    case "max" => IsMaxWithZero(x, s)
    case _ => false
  }

  /** No value was recorded: for "max" that also covers intervals without a positive value. */
  ghost predicate Unrecorded(aggregation: string, s: seq<real>) {
    if aggregation == "max" then forall i :: 0 <= i < |s| ==> s[i] <= 0.0 else s == []
  }

  // ---------- the invariant ----------

  ghost predicate PointInv(p: Point, c: Event, w: seq<real>)
    requires c.Add?
  {
    && p.aggregation == c.aggregation && p.keep == c.keep && p.nullable == c.nullable && Known(p.aggregation)
    && (p.valNull <==> Unrecorded(p.aggregation, w))
    && (if p.aggregation == "max" then IsMaxWithZero(p.value, w)
        else if p.aggregation == "min" then IsMin(p.value, w)
        else p.value == SumOf(w) && p.count == |w|)
  }

  lemma AddKeepsPoint(p: Point, c: Event, w: seq<real>, v: real)
    requires c.Add? && PointInv(p, c, w)
    ensures PointInv(AddTo(p, v), c, w + [v])
  {
    var w' := w + [v];
    assert w'[..|w|] == w && w'[|w|] == v;
    assert v in w' && (p.value in w ==> p.value in w');
  }

  ghost predicate KeyInv(s: State, c: Option<Event>, w: seq<real>, key: Key)
    requires c.Some? ==> c.value.Add?
  {
    && (key in s.points <==> c.Some?)
    && (key in s.points ==> PointInv(s.points[key], c.value, w))
  }

  lemma {:induction false} HistoryKeepsInv(events: seq<Event>, key: Key)
    ensures KeyInv(Run(events), Creator(events, key), Window(events, key), key)
  {
    if events != [] {
      var before, e := events[..|events| - 1], events[|events| - 1];
      HistoryKeepsInv(before, key);
      var s := Run(before);
      if e.Add? && e.key == key && GetPoint(s.points, e).Some? {
        if key !in s.points { NothingBeforeCreation(before, key); }
        AddKeepsPoint(GetPoint(s.points, e).value, Creator(events, key).value, Window(before, key), e.v);
      }
    }
  }

  lemma {:induction false} NothingBeforeCreation(events: seq<Event>, key: Key)
    requires Creator(events, key).None?
    ensures Window(events, key) == [] && TotalAdded(events, key) == 0.0
  {
    if events != [] { NothingBeforeCreation(events[..|events| - 1], key); }
  }

  lemma Quotient(y: real, n: real)
    requires n != 0.0
    ensures y / n * n == y
  {
  }

  lemma EmittedMeaning(p: Point, c: Event, w: seq<real>)
    requires c.Add? && PointInv(p, c, w)
    ensures Emitted(p).None? <==> !c.nullable && Unrecorded(c.aggregation, w)
    ensures Emitted(p).Some? ==> Means(c.aggregation, Emitted(p).value, w)
  {
    if p.aggregation == "avg" && p.count != 0 {
      Quotient(p.value, p.count as real);
    }
  }

  /** A run of `key` after any history sends exactly what the aggregation the point was created with means
      for the values since the previous run, and is silent only for an unrecorded, non-nullable interval. */
  lemma IntervalMeaning(events: seq<Event>, key: Key)
    requires Creator(events, key).Some?
    ensures key in Run(events).points
    ensures var c, w, m := Creator(events, key).value, Window(events, key), Emitted(Run(events).points[key]);
      && (m.None? <==> !c.nullable && Unrecorded(c.aggregation, w))
      && (m.Some? ==> Means(c.aggregation, m.value, w))
  {
    HistoryKeepsInv(events, key);
    assert key in Run(events).points;
    EmittedMeaning(Run(events).points[key], Creator(events, key).value, Window(events, key));
  }

  function SumFor(messages: seq<Message>, key: Key): real {
    if messages == [] then 0.0
    else
      var last := messages[|messages| - 1];
      SumFor(messages[..|messages| - 1], key) + if last.key == key then last.value else 0.0
  }

  lemma {:induction false} SumForConcat(a: seq<Message>, b: seq<Message>, key: Key)
    ensures SumFor(a + b, key) == SumFor(a, key) + SumFor(b, key)
  {
    if b == [] {
      assert a + b == a;
    } else {
      assert (a + b)[..|a + b| - 1] == a + b[..|b| - 1];
      SumForConcat(a, b[..|b| - 1], key);
    }
  }

  /** For a point created with "sum": answered batches, retry buffer and current value add up to everything added. */
  lemma {:induction false} SumConserved(events: seq<Event>, key: Key)
    requires Creator(events, key).Some? && Creator(events, key).value.aggregation == "sum"
    ensures key in Run(events).points
    ensures var s := Run(events);
      SumFor(s.answered, key) + SumFor(s.hBuffer, key) + s.points[key].value == TotalAdded(events, key)
  {
    HistoryKeepsInv(events, key);
    var before, e := events[..|events| - 1], events[|events| - 1];
    HistoryKeepsInv(before, key);
    var s, r := Run(before), Run(events);
    assert key in r.points;
    if Creator(before, key).None? {
      NothingBeforeCreation(before, key);
      NoMessagesBeforeCreation(before, key);
    } else {
      SumConserved(before, key);
      assert PointInv(s.points[key], Creator(before, key).value, Window(before, key));
      if e.Post? {
        SumForConcat(s.answered, s.hBuffer, key);
      } else if e.Tick? {
        SumForConcat(s.hBuffer, r.hBuffer[|s.hBuffer|..], key);
        if e.key == key && Emitted(s.points[key]).None? { assert Window(before, key) == []; }
      }
    }
  }

  lemma {:induction false} NoMessagesBeforeCreation(events: seq<Event>, key: Key)
    requires Creator(events, key).None?
    ensures SumFor(Run(events).answered, key) == 0.0 && SumFor(Run(events).hBuffer, key) == 0.0
  {
    if events != [] {
      var before := events[..|events| - 1];
      NoMessagesBeforeCreation(before, key);
      HistoryKeepsInv(before, key);
      var s, r := Run(before), Run(events);
      assert key !in s.points;
      if events[|events| - 1].Post? { SumForConcat(s.answered, s.hBuffer, key); }
      if events[|events| - 1].Tick? { SumForConcat(s.hBuffer, r.hBuffer[|s.hBuffer|..], key); }
    }
  }

  /** A call that may create a point: its interval parses and it asks for one of the four aggregations. */
  predicate Asks(e: Event, key: Key) {
    e.Add? && e.key == key && e.cronOk && e.aggregation in ["avg", "min", "max", "sum"]
  }

  /** A point exists exactly when some call asked for it. */
  lemma {:induction false} PointExistsIff(events: seq<Event>, key: Key)
    ensures key in Run(events).points <==> exists i :: 0 <= i < |events| && Asks(events[i], key)
  {
    if events != [] {
      var before, e := events[..|events| - 1], events[|events| - 1];
      PointExistsIff(before, key);
      assert forall i :: 0 <= i < |before| ==> before[i] == events[i];
      if key in Run(events).points && key !in Run(before).points { assert events[|before|] == e; }
    }
  }

  // ---------- what the messages say ----------

  /** The value an aggregation means for an interval. */
  function Meant(aggregation: string, w: seq<real>): real {
    match aggregation
    case "sum" => SumOf(w)
    case "avg" => if w == [] then 0.0 else SumOf(w) / |w| as real
    case "min" => if w == [] then 0.0 else Flattening.Least(w)
    case _ => Flattening.Greatest(w + [0.0])
  }

  lemma SameQuotient(x: real, y: real, n: real)
    requires n > 0.0 && x * n == y * n
    ensures x == y
  {
  }

  lemma AverageIff(x: real, w: seq<real>)
    requires w != []
    ensures x * |w| as real == SumOf(w) <==> x == SumOf(w) / |w| as real
  {
    Quotient(SumOf(w), |w| as real);
    if x * |w| as real == SumOf(w) { SameQuotient(x, SumOf(w) / |w| as real, |w| as real); }
  }

  lemma MinIff(x: real, w: seq<real>)
    requires w != []
    ensures IsMin(x, w) <==> x == Flattening.Least(w)
  {
    Flattening.LeastIsLeast(w);
    assert forall i :: 0 <= i < |w| ==> w[i] in w;
    var i :| 0 <= i < |w| && w[i] == Flattening.Least(w);
  }

  lemma MaxIff(x: real, w: seq<real>)
    ensures IsMaxWithZero(x, w) <==> x == Flattening.Greatest(w + [0.0])
  {
    var all := w + [0.0];
    Flattening.GreatestIsGreatest(all);
    assert all[|w|] == 0.0 && forall i :: 0 <= i < |w| ==> all[i] == w[i] && all[i] in all;
  }

  /** Exactly one value has the meaning. */
  lemma MeansIff(aggregation: string, x: real, w: seq<real>)
    requires Known(aggregation)
    ensures Means(aggregation, x, w) <==> x == Meant(aggregation, w)
  {
    if aggregation == "avg" {
      if w != [] { AverageIff(x, w); }
    } else if aggregation == "min" {
      if w != [] { MinIff(x, w); }
    } else if aggregation == "max" {
      MaxIff(x, w);
    }
  }

  /** The run of a point says nothing about an interval without a recorded value, unless the point is nullable. */
  ghost predicate Silent(c: Event, w: seq<real>)
    requires c.Add?
  {
    !c.nullable && Unrecorded(c.aggregation, w)
  }

  /** All messages ever produced, read off the history: one for each run of an existing point that is not silent, with
      what the creating call's aggregation means for the values since the previous run. */
  ghost function Sent(events: seq<Event>): seq<Message> {
    if events == [] then [] else
    var before, e := events[..|events| - 1], events[|events| - 1];
    Sent(before) + if e.Tick? then TickMessages(before, e.key) else []
  }

  ghost function TickMessages(before: seq<Event>, key: Key): seq<Message> {
    var c, w := Creator(before, key), Window(before, key);
    if c.None? || Silent(c.value, w) then [] else [Message(key, Meant(c.value.aggregation, w))]
  }

  /** How much of the history lies before and at the last post that got a response. */
  function LastResponse(events: seq<Event>): (n: nat)
    ensures n <= |events|
  {
    if events == [] then 0
    else if events[|events| - 1] == Post(true) then |events| else LastResponse(events[..|events| - 1])
  }

  lemma TickSends(before: seq<Event>, key: Key)
    ensures Run(before + [Tick(key)]).hBuffer == Run(before).hBuffer + TickMessages(before, key)
    ensures Run(before + [Tick(key)]).answered == Run(before).answered
  {
    var s := Run(before);
    assert (before + [Tick(key)])[..|before|] == before;
    HistoryKeepsInv(before, key);
    if key in s.points {
      IntervalMeaning(before, key);
      var c, w, m := Creator(before, key).value, Window(before, key), Emitted(s.points[key]);
      if m.Some? { MeansIff(c.aggregation, m.value, w); }
    }
  }

  /** After any history: what has been answered is exactly the messages up to the last post that got a response, the
      retry buffer exactly those since, in order. */
  lemma {:induction false} BufferTells(events: seq<Event>)
    ensures Run(events).answered == Sent(events[..LastResponse(events)])
    ensures Run(events).answered + Run(events).hBuffer == Sent(events)
  {
    if events != [] {
      var before, e := events[..|events| - 1], events[|events| - 1];
      BufferTells(before);
      assert events == before + [e];
      if e == Post(true) {
        assert events[..|events|] == events;
      } else {
        assert events[..LastResponse(before)] == before[..LastResponse(before)];
        if e.Tick? {
          TickSends(before, e.key);
          var s := Run(before);
          assert s.answered + (s.hBuffer + TickMessages(before,
            e.key)) == s.answered + s.hBuffer + TickMessages(before, e.key);
        }
      }
    }
  }

  /** A post without a response changes nothing. */
  lemma FailedPostChangesNothing(events: seq<Event>)
    ensures Run(events + [Post(false)]) == Run(events)
  {
    assert (events + [Post(false)])[..|events|] == events;
  }

  lemma UpdateTwice(m: map<Key, Point>, k: Key, a: Point, b: Point)
    ensures m[k := a][k := b] == m[k := b]
  {
  }

  // ---------- the object ----------

  class Stats {
    var points: map<Key, CustomPoint>
    var hBuffer: seq<Message>
    ghost var answered: seq<Message>

    ghost predicate Valid()
      reads this
    {
      && (forall k :: k in points ==> Known(points[k].aggregation))
      && (forall j, k :: j in points && k in points && points[j] == points[k] ==> j == k)
    }

    ghost function Snapshot(): State
      reads this, points.Values
    {
      State(map k | k in points :: points[k].Snapshot(), hBuffer, answered)
    }

    constructor ()
      ensures Valid() && Snapshot() == State(map[], [], []) && points == map[]
    {
      points, hBuffer, answered := map[], [], [];
    }

    /** `getPoint`. */
    method GetOrCreate(e: Event) returns (p: CustomPoint?)
      requires Valid() && e.Add?
      modifies this`points
      ensures Valid()
      ensures p == null <==> GetPoint(old(Snapshot()).points, e).None?
      ensures p == null ==> points == old(points)
      ensures p != null ==> p.Snapshot() == GetPoint(old(Snapshot()).points, e).value
      ensures p != null ==> e.key in points && points[e.key] == p
      ensures p != null ==> points == old(points)[e.key := p]
      ensures p != null ==>
        Snapshot().points == old(Snapshot()).points[e.key := GetPoint(old(Snapshot()).points, e).value]
      ensures p != null ==> if e.key in old(points) then p == old(points)[e.key] else fresh(p)
    {
      if e.key in points {
        return points[e.key];
      }
      if !e.cronOk || !Known(e.aggregation) {
        return null;
      }
      p := new CustomPoint(e.aggregation, e.keep, e.nullable);
      points := points[e.key := p];
    }

    /** `Stats.ValueAdd`. */
    method ValueAdd(e: Event) returns (ok: bool)
      requires Valid() && e.Add?
      modifies this`points, points.Values
      ensures Valid() && Snapshot() == Apply(old(Snapshot()), e)
      ensures ok == GetPoint(old(Snapshot()).points, e).Some?
    {
      var p := GetOrCreate(e);
      if p == null {
        return false;
      }
      assert fresh(p) || old(e.key in points && points[e.key] in points.Values);
      ghost var mid := Snapshot().points;
      p.Aggregate(e.v);
      ghost var p0 := GetPoint(old(Snapshot()).points, e).value;
      assert Snapshot().points == mid[e.key := AddTo(p0, e.v)];
      UpdateTwice(old(Snapshot()).points, e.key, p0, AddTo(p0, e.v));
      ok := true;
    }

    /** A cron run of one point; `clientHTTP` receives the message and buffers it. */
    method Tick(key: Key)
      requires Valid()
      modifies this`hBuffer, points.Values
      ensures Valid() && Snapshot() == Apply(old(Snapshot()), Event.Tick(key))
    {
      if key in points {
        var m := points[key].Run();
        if m.Some? {
          hBuffer := hBuffer + [Message(key, m.value)];
        }
        assert Snapshot().points == Apply(old(Snapshot()), Event.Tick(key)).points;
      }
    }

    /** One ticker case of `clientHTTP`: the buffer is cleared only after a response. */
    method Post(gotResponse: bool)
      requires Valid()
      modifies this`hBuffer, this`answered
      ensures Valid() && Snapshot() == Apply(old(Snapshot()), Event.Post(gotResponse))
    {
      if gotResponse {
        answered := answered + hBuffer;
        hBuffer := [];
      }
    }
  }
}
