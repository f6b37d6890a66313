/**
 * The conversion engine of convmag (convert_unit), parametrised by its factor table.
 *
 * The source stores the table as a dictionary keyed by "src_dst" strings; here a key is the
 * pair (src, dst). The lemma KeyInjective shows that for "_"-free units the two are the same
 * dictionary, and Laws.StringKeyLookup states it for every table this engine is used with.
 */
module Engine {
  import opened Wrappers
  import opened Constants

  /** A directed conversion table: (src, dst) |-> factor, read as "1 src = factor dst". */
  type Table = map<(string, string), real>

  /** The base units: every token of every key of the table. */
  function Units(t: Table): set<string>
  {
    (set p | p in t :: p.0) + (set p | p in t :: p.1)
  }

  /** The dictionary key the source forms from two base units. */
  function Key(s: string, e: string): string
  {
    s + "_" + e
  }

  /** Two "_"-free start units never produce the same key with different unit pairs. */
  lemma KeyInjective(s: string, e: string, s': string, e': string)
    requires '_' !in s && '_' !in s'
    requires Key(s, e) == Key(s', e')
    ensures s == s' && e == e'
  {
    var k := Key(s, e);
    assert k[|s|] == '_' && k[|s'|] == '_';
    assert s == k[..|s|] == s';
    assert e == k[|s| + 1..] == e';
  }

  /** A unit string the resolver accepts: a base unit, or a known prefix followed by one. */
  ghost predicate Denotes(units: set<string>, raw: string)
  {
    raw in units || exists p: char, u: string :: p in Prefixes && u in units && raw == [p] + u
  }

  /** How one unit string resolved. */
  datatype Resolved =
    | Whole(unit: string)                   // the whole string is a base unit
    | Prefixed(prefix: Prefix, unit: string) // a prefix character, then a base unit
    | NotRecognised                         // neither: the source goes on with the sentinel ""
  {
    /** The base unit the engine goes on with (s_u / e_u in the source). */
    function Base(): string
    {
      match this
      case Whole(u) => u
      case Prefixed(_, u) => u
      case NotRecognised => ""
    }

    /** The scale of the unit string relative to its base unit (pre / post in the source). */
    function Scale(): (s: real)
      ensures s > 0.0
      ensures Prefixed? <==> s != 1.0
    {
      if Prefixed? then PrefixScale(prefix) else 1.0
    }
  }

  /**
   * Resolves a unit string against the base units: the whole string first, then a one-character
   * prefix and the remainder. `raw[0]` on an empty string raises IndexError.
   */
  function Resolve(units: set<string>, raw: string): (r: Result<Resolved, PyError>)
    ensures r.Err? <==> raw == [] && raw !in units
    ensures r.Err? ==> r.error == IndexError
    ensures r.Ok? ==> (r.value.NotRecognised? <==> !Denotes(units, raw))
    ensures raw in units ==> r == Ok(Whole(raw))
    ensures r.Ok? && r.value.Prefixed? ==>
              raw !in units && raw == [r.value.prefix] + r.value.unit && r.value.unit in units
    ensures r.Ok? && r.value.Whole? ==> r.value.unit == raw
    ensures r.Ok? && !r.value.NotRecognised? ==> r.value.Base() in units
  {
    if raw in units then
      Ok(Whole(raw))
    else if |raw| == 0 then
      Err(IndexError)
    else if raw[0] in Prefixes && raw[1..] in units then
      assert raw == [raw[0]] + raw[1..];
      Ok(Prefixed(raw[0], raw[1..]))
    else
      Ok(NotRecognised)
  }

  /** The notation the verbose mode prints a result in. */
  datatype Notation = Fixed | Scientific

  /** The fixed notation is used exactly for results between 1e-3 and 1e3, both included. */
  function NotationFor(conv: real): (n: Notation)
    ensures n == Fixed <==> 1e-3 <= conv <= 1e3
    ensures conv <= 0.0 ==> n == Scientific
  {
    if 1e3 >= conv >= 1e-3 then Fixed else Scientific
  }

  /** The diagnostics convert_unit prints, in the order it prints them. */
  datatype Message =
    | StartUnitNotRecognised
    | EndUnitNotRecognised
    | ConversionNotAvailable(startunit: string, endunit: string)
    | Shown(notation: Notation)   // the verbose line with the result

  /** What convert_unit returns (conv, None for no result) and what it prints on the way. */
  datatype Conversion<T> = Conversion(conv: Option<T>, printed: seq<Message>)

  /** The two base units are related by the table in one direction or the other. */
  predicate Related(t: Table, s: string, e: string)
  {
    (s, e) in t || (e, s) in t
  }

  /**
   * The factor from s to e: the stored forward factor, or 1/F for a stored reverse entry F
   * (ZeroDivisionError when F is 0), or None when the table relates neither way.
   */
  function Lookup(t: Table, s: string, e: string): (r: Result<Option<real>, PyError>)
    ensures r.Ok? && r.value.None? <==> !Related(t, s, e)
    ensures (s, e) in t ==> r == Ok(Some(t[(s, e)]))
    ensures r.Err? <==> (s, e) !in t && (e, s) in t && t[(e, s)] == 0.0
    ensures r.Ok? && r.value.Some? && (s, e) !in t ==> r.value.value * t[(e, s)] == 1.0
  {
    if (s, e) in t then
      Ok(Some(t[(s, e)]))
    else if (e, s) in t then
      if t[(e, s)] == 0.0 then Err(ZeroDivisionError) else Ok(Some(1.0 / t[(e, s)]))
    else
      Ok(None)
  }

  /** Everything convert_unit decides before it multiplies the number. */
  datatype Plan = Plan(start: Resolved, end: Resolved, factor: Option<real>, printed: seq<Message>)

  /** The unit-error lines printed while resolving the two unit strings. */
  function UnitErrors(s: Resolved, e: Resolved): seq<Message>
  {
    match (s, e)
    case (NotRecognised, NotRecognised) => [StartUnitNotRecognised, EndUnitNotRecognised]
    case (NotRecognised, _) => [StartUnitNotRecognised]
    case (_, NotRecognised) => [EndUnitNotRecognised]
    case _ => []
  }

  /** Resolves both units, looks the factor up and collects the diagnostics. */
  function PlanConversion(t: Table, startunit: string, endunit: string): (r: Result<Plan, PyError>)
    ensures r.Ok? ==> Resolve(Units(t), startunit) == Ok(r.value.start)
    ensures r.Ok? ==> Resolve(Units(t), endunit) == Ok(r.value.end)
    ensures r.Ok? ==> Lookup(t, r.value.start.Base(), r.value.end.Base()) == Ok(r.value.factor)
    ensures r.Ok? ==> (StartUnitNotRecognised in r.value.printed <==> r.value.start.NotRecognised?)
    ensures r.Ok? ==> (EndUnitNotRecognised in r.value.printed <==> r.value.end.NotRecognised?)
    ensures r.Ok? ==> (ConversionNotAvailable(startunit, endunit) in r.value.printed <==>
                         r.value.factor.None? && r.value.start.Base() in Units(t) && r.value.end.Base() in Units(t))
  {
    var units := Units(t);
    match Resolve(units, startunit)
    case Err(err) => Err(err)
    case Ok(s) =>
      match Resolve(units, endunit)
      case Err(err) => Err(err)
      case Ok(e) =>
        match Lookup(t, s.Base(), e.Base())
        case Err(err) => Err(err)
        case Ok(f) =>
          if f.None? && s.Base() in units && e.Base() in units then
            Ok(Plan(s, e, f, UnitErrors(s, e) + [ConversionNotAvailable(startunit, endunit)]))
          else
            Ok(Plan(s, e, f, UnitErrors(s, e)))
  }

  /** The source's arithmetic: number * pre * factor / post. */
  function Scaled(number: real, pre: real, f: real, post: real): real
    requires post != 0.0
  {
    number * pre * f / post
  }

  /** convert_unit on one number. */
  function ConvertUnit(t: Table, number: real, startunit: string, endunit: string, verbose: bool := false)
    : (r: Result<Conversion<real>, PyError>)
    ensures r.Err? && r.error == IndexError <==>
              (startunit == [] || endunit == []) && "" !in Units(t)
    ensures r.Ok? ==> Resolve(Units(t), startunit).Ok? && Resolve(Units(t), endunit).Ok?
    ensures r.Ok? ==> (StartUnitNotRecognised in r.value.printed <==> !Denotes(Units(t), startunit))
    ensures r.Ok? ==> (EndUnitNotRecognised in r.value.printed <==> !Denotes(Units(t), endunit))
    ensures r.Ok? && r.value.conv.Some? ==>
              (verbose <==> Shown(NotationFor(r.value.conv.value)) in r.value.printed)
    ensures r.Ok? && r.value.conv.Some? ==> ConversionNotAvailable(startunit, endunit) !in r.value.printed
  {
    match PlanConversion(t, startunit, endunit)
    case Err(err) => Err(err)
    case Ok(plan) =>
      match plan.factor
      case None => Ok(Conversion(None, plan.printed))
      case Some(f) =>
        var conv := Scaled(number, plan.start.Scale(), f, plan.end.Scale());
        Ok(Conversion(Some(conv), if verbose then plan.printed + [Shown(NotationFor(conv))] else plan.printed))
  }

  /** convert_unit on a numpy array of numbers (verbose off): the same formula element by element. */
  function ConvertBatch(t: Table, numbers: seq<real>, startunit: string, endunit: string)
    : (r: Result<Conversion<seq<real>>, PyError>)
    ensures r.Ok? && r.value.conv.Some? ==> |r.value.conv.value| == |numbers|
  {
    match PlanConversion(t, startunit, endunit)
    case Err(err) => Err(err)
    case Ok(plan) =>
      match plan.factor
      case None => Ok(Conversion(None, plan.printed))
      case Some(f) =>
        Ok(Conversion(Some(seq(|numbers|, i requires 0 <= i < |numbers| => Scaled(numbers[i], plan.start.Scale(), f, plan.end.Scale()))), plan.printed))
  }

  /** A batch gives a result exactly when a single number with the same units does, with the same diagnostics. */
  lemma BatchPlan(t: Table, numbers: seq<real>, x: real, startunit: string, endunit: string)
    ensures var r := ConvertBatch(t, numbers, startunit, endunit);
            var one := ConvertUnit(t, x, startunit, endunit, false);
            r.Ok? == one.Ok? && (r.Ok? ==> r.value.printed == one.value.printed && r.value.conv.Some? == one.value.conv.Some?)
  {
  }

  /** Each element of a batch conversion is what converting that element alone gives. */
  lemma BatchIsElementwise(t: Table, numbers: seq<real>, startunit: string, endunit: string, i: nat)
    requires i < |numbers|
    ensures var r := ConvertBatch(t, numbers, startunit, endunit);
            ConvertUnit(t, numbers[i], startunit, endunit, false)
            == match r
               case Err(err) => Err(err)
               case Ok(Conversion(None, printed)) => Ok(Conversion(None, printed))
               case Ok(Conversion(Some(values), printed)) => Ok(Conversion(Some(values[i]), printed))
  {
    match PlanConversion(t, startunit, endunit)
    case Err(_) =>
    case Ok(plan) =>
      match plan.factor
      case None =>
      case Some(f) =>
  }
}
