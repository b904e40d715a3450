/** The year-range controls: two slider handles and two text boxes
    mirroring them. A slider move or a committed text box asks for a year;
    the year is rounded and clamped into the catalog window, and the moved
    handle is then kept on its own side of the other handle, where it stays
    pinned if dragged past it — the other handle never moves. Text boxes
    accept only digit strings while typing, and are rewritten from the
    range whenever the range actually changes. */
module Controls {
  import opened Common
  import opened Text
  import opened View

  datatype Handle = Start | End

  /** The two text boxes' contents. */
  datatype Inputs = Inputs(start: string, end: string)

  /** Everything the controls hold: the committed range and the text
      boxes. */
  datatype State = State(range: YearRange, inputs: Inputs)

  /** A user action: dragging a slider to a value, typing into a text box,
      or committing a text box (blur or Enter). */
  datatype Event = Slide(handle: Handle, raw: Number) | Type(handle: Handle, text: string) | Commit(handle: Handle)

  predicate Valid(r: YearRange) {
    YearMin <= r.start <= r.end <= YearMax
  }

  function Min(a: int, b: int): int {
    if a <= b then a else b
  }

  function Max(a: int, b: int): int {
    if a >= b then a else b
  }

  /** `Math.round`: the nearest integer, halves rounding up; NaN stays
      NaN (as `None`). */
  function RoundYear(raw: Number): (r: Option<int>)
    ensures raw.NaN? <==> r.None?
    ensures raw.Finite? ==> raw.value - 0.5 < r.value as real <= raw.value + 0.5
  {
    match raw
    case NaN => None
    case Finite(x) => Some((x + 0.5).Floor)
  }

  /** `clampYear`: NaN becomes the first catalog year, anything else is
      clamped into the catalog window. */
  function ClampYear(v: Option<int>): (y: int)
    ensures InCatalogYears(y)
    ensures v.None? ==> y == YearMin
    ensures v.Some? && InCatalogYears(v.value) ==> y == v.value
    ensures v.Some? && v.value < YearMin ==> y == YearMin
    ensures v.Some? && v.value > YearMax ==> y == YearMax
  {
    match v
    case None => YearMin
    case Some(n) => Max(YearMin, Min(YearMax, n))
  }

  /** The year a raw value asks for. */
  function Requested(raw: Number): (y: int)
    ensures InCatalogYears(y)
  {
    ClampYear(RoundYear(raw))
  }

  /** `updateYearRange`, with both of its repair tests as written; neither
      can fire, because the moved handle is already bounded by the other. */
  function UpdateYearRange(prev: YearRange, h: Handle, raw: Number): (r: YearRange)
    ensures h == Start ==> r.end == prev.end && r.start <= prev.end
    ensures h == End ==> r.start == prev.start && r.end >= prev.start
    ensures Valid(prev) ==> Valid(r)
  {
    var value := Requested(raw);
    match h
    case Start =>
      var start := Min(value, prev.end);
      var end := if prev.end < start then start else prev.end;
      YearRange(start, end)
    case End =>
      var end := Max(value, prev.start);
      var start := if prev.start > end then end else prev.start;
      YearRange(start, end)
  }

  function Get(inputs: Inputs, h: Handle): string {
    match h
    case Start => inputs.start
    case End => inputs.end
  }

  function Put(inputs: Inputs, h: Handle, text: string): (r: Inputs)
    ensures Get(r, h) == text
    ensures h == Start ==> r.end == inputs.end
    ensures h == End ==> r.start == inputs.start
  {
    match h
    case Start => inputs.(start := text)
    case End => inputs.(end := text)
  }

  function Bound(r: YearRange, h: Handle): int {
    match h
    case Start => r.start
    case End => r.end
  }

  /** `String(n)` for an integer. */
  function Render(n: int): (s: string)
    ensures n >= 0 ==> AllDigits(s) && DigitsValue(s) == n
  {
    DigitsValueOfDecimal(if n >= 0 then n else -n);
    if n >= 0 then DecimalString(n) else "-" + DecimalString(-n)
  }

  /** What the resync effect writes into the text boxes. */
  function Mirror(r: YearRange): Inputs {
    Inputs(Render(r.start), Render(r.end))
  }

  /** `Number(text)` at commit: a digit string reads as its decimal value
      (the empty string as 0); any other text is read by `numberOf`, the
      host's general conversion. */
  function CommitValue(text: string, numberOf: string -> Number): (n: Number)
    ensures AllDigits(text) ==> n == Finite(DigitsValue(text) as real)
  {
    if AllDigits(text) then Finite(DigitsValue(text) as real) else numberOf(text)
  }

  /** The handler of one event, before the resync effect. Typing never
      moves the range, sliding never edits the text boxes, and a commit
      does one or the other. */
  function Apply(s: State, e: Event, numberOf: string -> Number): (r: State)
    ensures e.Type? ==> r.range == s.range
    ensures e.Slide? ==> r.inputs == s.inputs
    ensures e.Commit? ==> r.range == s.range || r.inputs == s.inputs
  {
    match e
    case Slide(h, raw) => s.(range := UpdateYearRange(s.range, h, raw))
    case Type(h, text) => if AllDigits(text) then s.(inputs := Put(s.inputs, h, text)) else s
    case Commit(h) =>
      var raw := CommitValue(Get(s.inputs, h), numberOf);
      if raw.NaN? then s.(inputs := Put(s.inputs, h, Render(Bound(s.range, h))))
      else s.(range := UpdateYearRange(s.range, h, raw))
  }

  /** The resync effect: it runs only when the start or end year changed. */
  function Resync(before: YearRange, s: State): (r: State)
    ensures r.range == s.range
  {
    if s.range.start != before.start || s.range.end != before.end then s.(inputs := Mirror(s.range)) else s
  }

  /** One event followed by the effect it may trigger: the range is the
      handler's, and once it moved the text boxes show it. */
  function Step(s: State, e: Event, numberOf: string -> Number): (r: State)
    ensures r.range == Apply(s, e, numberOf).range
    ensures r.range != s.range ==> r.inputs == Mirror(r.range)
  {
    Resync(s.range, Apply(s, e, numberOf))
  }

  const Initial: State := State(YearRange(YearMin, YearMax), Mirror(YearRange(YearMin, YearMax)))

  /** The controls' invariant: a valid range and digit-only text boxes. */
  predicate Inv(s: State) {
    Valid(s.range) && AllDigits(s.inputs.start) && AllDigits(s.inputs.end)
  }

  // ------------------------------------------------------------ proofs

  /** Pinning: the moved handle goes to the requested year when that keeps
      it on its own side of the other handle, and stops at the other
      handle otherwise. */
  lemma UpdatePins(prev: YearRange, h: Handle, raw: Number)
    requires Valid(prev)
    ensures h == Start && Requested(raw) <= prev.end ==> UpdateYearRange(prev, h, raw).start == Requested(raw)
    ensures h == Start && Requested(raw) > prev.end ==> UpdateYearRange(prev, h, raw).start == prev.end
    ensures h == End && Requested(raw) >= prev.start ==> UpdateYearRange(prev, h, raw).end == Requested(raw)
    ensures h == End && Requested(raw) < prev.start ==> UpdateYearRange(prev, h, raw).end == prev.start
  {
  }

  /** Applying the same update twice is applying it once. */
  lemma UpdateIdempotent(prev: YearRange, h: Handle, raw: Number)
    ensures UpdateYearRange(UpdateYearRange(prev, h, raw), h, raw) == UpdateYearRange(prev, h, raw)
  {
  }

  lemma InitialInv()
    ensures Inv(Initial)
    ensures Initial.inputs == Mirror(Initial.range)
  {
    assert YearMin >= 0 && YearMax >= 0;
  }

  /** Every event keeps the invariant. */
  lemma StepInv(s: State, e: Event, numberOf: string -> Number)
    requires Inv(s)
    ensures Inv(Step(s, e, numberOf))
  {
    var t := Apply(s, e, numberOf);
    match e
    case Slide(h, raw) =>
    case Type(h, text) =>
    case Commit(h) =>
      CommitNeverReverts(s, h, numberOf);
  }

  /** Under the invariant a commit reads a number, so the revert branch is
      never taken: the text box is left as typed and only the range moves,
      whatever the host's conversion does with other text. */
  lemma CommitNeverReverts(s: State, h: Handle, numberOf: string -> Number)
    requires Inv(s)
    ensures Apply(s, Commit(h), numberOf).inputs == s.inputs
    ensures Apply(s, Commit(h), numberOf).range
         == UpdateYearRange(s.range, h, Finite(DigitsValue(Get(s.inputs, h)) as real))
  {
  }

  /** Committing an empty text box asks for year 0, which clamps to the
      first catalog year: the start handle goes there, the end handle is
      pinned at the start. */
  lemma EmptyCommit(s: State, h: Handle, numberOf: string -> Number)
    requires Inv(s) && Get(s.inputs, h) == ""
    ensures h == Start ==> Step(s, Commit(h), numberOf).range == YearRange(YearMin, s.range.end)
    ensures h == End ==> Step(s, Commit(h), numberOf).range == YearRange(s.range.start, s.range.start)
  {
    assert RoundYear(Finite(0.0)) == Some(0);
  }

  /** The text boxes are rewritten exactly when the range changed, and then
      to the range's decimal strings. */
  lemma ResyncWhenChanged(s: State, e: Event, numberOf: string -> Number)
    ensures Step(s, e, numberOf).range == Apply(s, e, numberOf).range
    ensures Apply(s, e, numberOf).range != s.range ==>
              Step(s, e, numberOf).inputs == Mirror(Step(s, e, numberOf).range)
    ensures Apply(s, e, numberOf).range == s.range ==>
              Step(s, e, numberOf).inputs == Apply(s, e, numberOf).inputs
  {
  }

  /** Typing keeps digit strings and rejects anything else; the other box
      and the range are untouched either way. */
  lemma TypeSpec(s: State, h: Handle, text: string, numberOf: string -> Number)
    ensures Step(s, Type(h, text), numberOf).range == s.range
    ensures AllDigits(text) ==> Get(Step(s, Type(h, text), numberOf).inputs, h) == text
    ensures !AllDigits(text) ==> Step(s, Type(h, text), numberOf) == s
    ensures h == Start ==> Step(s, Type(h, text), numberOf).inputs.end == s.inputs.end
    ensures h == End ==> Step(s, Type(h, text), numberOf).inputs.start == s.inputs.start
  {
  }

  /** Committing a text box that shows the range changes nothing: the
      rendered year reads back as the same year. */
  lemma CommitMirrorUnchanged(s: State, h: Handle, numberOf: string -> Number)
    requires Valid(s.range) && s.inputs == Mirror(s.range)
    ensures Step(s, Commit(h), numberOf) == s
  {
    var y := Bound(s.range, h);
    assert Get(s.inputs, h) == Render(y);
    var raw := CommitValue(Get(s.inputs, h), numberOf);
    assert raw == Finite(y as real);
    assert Requested(raw) == y by {
      assert RoundYear(raw) == Some(y);
    }
    assert Apply(s, Commit(h), numberOf) == s by {
      RequestedBoundUnchanged(s.range, h, raw);
    }
  }

  /** Asking a handle of a valid range for the year it already holds
      leaves the range as it is. */
  lemma RequestedBoundUnchanged(r: YearRange, h: Handle, raw: Number)
    requires Valid(r) && Requested(raw) == Bound(r, h)
    ensures UpdateYearRange(r, h, raw) == r
  {
  }
}
