/** What the conversion engine guarantees for every table, or for every well-formed table. */
module Laws {
  import opened Wrappers
  import opened Constants
  import opened Engine
  import opened RealArith

  /**
   * The shape both factor tables have: no self-pair, no pair stored in both directions, every
   * factor positive, and no base unit empty or containing the key separator "_".
   */
  ghost predicate WellFormed(t: Table)
  {
    && (forall p | p in t :: p.0 != p.1)
    && (forall p | p in t :: (p.1, p.0) !in t)
    && (forall p | p in t :: t[p] > 0.0)
    && (forall u | u in Units(t) :: u != "" && '_' !in u)
  }

  /**
   * The source looks the factor up under the string key s + "_" + e. For a well-formed table
   * and a start and end unit that are base units or the sentinel "", that finds an entry
   * exactly when the pair (s, e) is in the pair-keyed table.
   */
  lemma StringKeyLookup(t: Table, s: string, e: string)
    requires WellFormed(t)
    requires s in Units(t) || s == ""
    ensures (exists p | p in t :: Key(p.0, p.1) == Key(s, e)) <==> (s, e) in t
  {
    if p :| p in t && Key(p.0, p.1) == Key(s, e) {
      assert p.0 in Units(t);
      KeyInjective(p.0, p.1, s, e);
    }
    if (s, e) in t {
      assert Key((s, e).0, (s, e).1) == Key(s, e);
    }
  }

  /** Under a well-formed table the sentinel "" never appears in a key. */
  lemma SentinelUnrelated(t: Table, u: string)
    requires WellFormed(t)
    ensures !Related(t, "", u)
  {
    forall p | p in t
      ensures p.0 != "" && p.1 != ""
    {
      assert p.0 in Units(t) && p.1 in Units(t);
    }
  }

  /** A stored forward entry F converts number to number * pre * F / post. */
  lemma ForwardConversion(t: Table, x: real, startunit: string, endunit: string, s: Resolved, e: Resolved)
    requires WellFormed(t)
    requires Resolve(Units(t), startunit) == Ok(s) && Resolve(Units(t), endunit) == Ok(e)
    requires (s.Base(), e.Base()) in t
    ensures !s.NotRecognised? && !e.NotRecognised?
    ensures ConvertUnit(t, x, startunit, endunit, false)
            == Ok(Conversion(Some(Scaled(x, s.Scale(), t[(s.Base(), e.Base())], e.Scale())), []))
  {
    SentinelUnrelated(t, e.Base());
    SentinelUnrelated(t, s.Base());
    assert UnitErrors(s, e) == [];
    assert PlanConversion(t, startunit, endunit) == Ok(Plan(s, e, Some(t[(s.Base(), e.Base())]), []));
  }

  /** Between two base units a stored forward entry F multiplies by F (with both scales 1). */
  lemma ForwardBetweenBaseUnits(t: Table, x: real, s: string, e: string)
    requires WellFormed(t)
    requires (s, e) in t
    ensures ConvertUnit(t, x, s, e, false) == Ok(Conversion(Some(Scaled(x, 1.0, t[(s, e)], 1.0)), []))
  {
    assert s in Units(t) && e in Units(t);
    assert Resolve(Units(t), s) == Ok(Whole(s)) && Resolve(Units(t), e) == Ok(Whole(e));
    ForwardConversion(t, x, s, e, Whole(s), Whole(e));
  }

  /** When only the reverse entry F is stored, the engine multiplies by 1/F instead. */
  lemma ReverseConversion(t: Table, x: real, startunit: string, endunit: string, s: Resolved, e: Resolved)
    requires WellFormed(t)
    requires Resolve(Units(t), startunit) == Ok(s) && Resolve(Units(t), endunit) == Ok(e)
    requires (e.Base(), s.Base()) in t
    ensures !s.NotRecognised? && !e.NotRecognised?
    ensures ConvertUnit(t, x, startunit, endunit, false)
            == Ok(Conversion(Some(Scaled(x, s.Scale(), 1.0 / t[(e.Base(), s.Base())], e.Scale())), []))
  {
    SentinelUnrelated(t, e.Base());
    SentinelUnrelated(t, s.Base());
    assert (s.Base(), e.Base()) !in t;
    assert UnitErrors(s, e) == [];
    assert PlanConversion(t, startunit, endunit) == Ok(Plan(s, e, Some(1.0 / t[(e.Base(), s.Base())]), []));
  }

  /** Between two base units a stored reverse entry F multiplies by 1/F (with both scales 1). */
  lemma ReverseBetweenBaseUnits(t: Table, x: real, s: string, e: string)
    requires WellFormed(t)
    requires (e, s) in t
    ensures ConvertUnit(t, x, s, e, false) == Ok(Conversion(Some(Scaled(x, 1.0, 1.0 / t[(e, s)], 1.0)), []))
  {
    assert s in Units(t) && e in Units(t);
    assert Resolve(Units(t), s) == Ok(Whole(s)) && Resolve(Units(t), e) == Ok(Whole(e));
    ReverseConversion(t, x, s, e, Whole(s), Whole(e));
  }

  /** From a prefixed base unit to a base unit that a stored reverse entry F relates: scale, then 1/F. */
  lemma PrefixedReverse(t: Table, x: real, p: Prefix, s: string, e: string)
    requires WellFormed(t)
    requires [p] + s !in Units(t)
    requires (e, s) in t
    ensures t[(e, s)] > 0.0
    ensures ConvertUnit(t, x, [p] + s, e, false)
            == Ok(Conversion(Some(Scaled(x, PrefixScale(p), 1.0 / t[(e, s)], 1.0)), []))
  {
    assert s in Units(t) && e in Units(t);
    ResolvesPrefixed(Units(t), p, s);
    assert Resolve(Units(t), e) == Ok(Whole(e));
    ReverseConversion(t, x, [p] + s, e, Prefixed(p, s), Whole(e));
  }

  /** A known prefix in front of a base unit that is not itself a base unit resolves to both. */
  lemma ResolvesPrefixed(units: set<string>, p: Prefix, u: string)
    requires u in units && [p] + u !in units
    ensures Resolve(units, [p] + u) == Ok(Prefixed(p, u))
  {
    assert ([p] + u)[0] == p && ([p] + u)[1..] == u;
  }

  /** A non-empty string that is neither a base unit nor a known prefix before one is not recognised. */
  lemma ResolvesNot(units: set<string>, raw: string)
    requires raw !in units && raw != [] && !(raw[0] in Prefixes && raw[1..] in units)
    ensures Resolve(units, raw) == Ok(NotRecognised)
  {
  }

  /** Only the start unit failed to resolve: exactly one unit-error line. */
  lemma StartErrorOnly(e: Resolved)
    requires !e.NotRecognised?
    ensures UnitErrors(NotRecognised, e) == [StartUnitNotRecognised]
  {
  }

  /**
   * Two recognised units that the table does not relate give no result and exactly the
   * "Conversion not available" diagnostic.
   */
  lemma UnavailableConversion(t: Table, x: real, startunit: string, endunit: string, s: Resolved, e: Resolved, verbose: bool)
    requires Resolve(Units(t), startunit) == Ok(s) && Resolve(Units(t), endunit) == Ok(e)
    requires !s.NotRecognised? && !e.NotRecognised?
    requires !Related(t, s.Base(), e.Base())
    ensures ConvertUnit(t, x, startunit, endunit, verbose)
            == Ok(Conversion(None, [ConversionNotAvailable(startunit, endunit)]))
  {
    assert UnitErrors(s, e) == [];
    assert UnitErrors(s, e) + [ConversionNotAvailable(startunit, endunit)] == [ConversionNotAvailable(startunit, endunit)];
  }

  /**
   * An unrecognised unit gives no result; the diagnostics are the unit-error lines alone, and
   * "Conversion not available" is not reported.
   */
  lemma UnrecognisedUnit(t: Table, x: real, startunit: string, endunit: string, s: Resolved, e: Resolved, verbose: bool)
    requires WellFormed(t)
    requires Resolve(Units(t), startunit) == Ok(s) && Resolve(Units(t), endunit) == Ok(e)
    requires s.NotRecognised? || e.NotRecognised?
    ensures ConvertUnit(t, x, startunit, endunit, verbose) == Ok(Conversion(None, UnitErrors(s, e)))
    ensures UnitErrors(s, e) != []
  {
    if s.NotRecognised? {
      SentinelUnrelated(t, e.Base());
    } else {
      SentinelUnrelated(t, s.Base());
      assert Related(t, s.Base(), "") <==> Related(t, "", s.Base());
    }
    assert "" !in Units(t);
  }

  /** A base unit and the same base unit with a prefix are never related: T to kT gives no result. */
  lemma SameBaseUnitNotAvailable(t: Table, x: real, u: string, p: Prefix, verbose: bool)
    requires WellFormed(t)
    requires u in Units(t) && [p] + u !in Units(t)
    ensures ConvertUnit(t, x, u, [p] + u, verbose)
            == Ok(Conversion(None, [ConversionNotAvailable(u, [p] + u)]))
  {
    assert ([p] + u)[0] == p && ([p] + u)[1..] == u;
    assert Resolve(Units(t), [p] + u) == Ok(Prefixed(p, u));
    UnavailableConversion(t, x, u, [p] + u, Whole(u), Prefixed(p, u), verbose);
  }

  /**
   * The fixed-notation band is closed under reciprocals: a factor and its inverse, as a forward
   * and a reverse lookup produce them, are printed in the same notation.
   */
  lemma NotationReciprocal(conv: real)
    requires conv != 0.0
    ensures NotationFor(1.0 / conv) == NotationFor(conv)
  {
    if conv > 0.0 {
      ReciprocalBand(conv);
      ReciprocalBand(1.0 / conv);
      assert 1.0 / (1.0 / conv) == conv;
    }
  }

  /** A positive number in the band 1e-3 .. 1e3 has its reciprocal in the band too. */
  lemma ReciprocalBand(x: real)
    requires x > 0.0
    ensures 1e-3 <= x <= 1e3 ==> 1e-3 <= 1.0 / x <= 1e3
  {
  }

  /** Called without verbose, convert_unit is the quiet conversion and never prints a result line. */
  lemma QuietByDefault(t: Table, x: real, startunit: string, endunit: string)
    ensures ConvertUnit(t, x, startunit, endunit) == ConvertUnit(t, x, startunit, endunit, false)
    ensures ConvertUnit(t, x, startunit, endunit).Ok? ==>
              Shown(Fixed) !in ConvertUnit(t, x, startunit, endunit).value.printed
              && Shown(Scientific) !in ConvertUnit(t, x, startunit, endunit).value.printed
  {
    match PlanConversion(t, startunit, endunit)
    case Err(_) =>
    case Ok(plan) =>
      NoResultLine(plan.start, plan.end, startunit, endunit);
  }

  /** The diagnostics gathered before the multiplication never include a result line. */
  lemma NoResultLine(s: Resolved, e: Resolved, startunit: string, endunit: string)
    ensures forall n: Notation :: Shown(n) !in UnitErrors(s, e)
    ensures forall n: Notation :: Shown(n) !in UnitErrors(s, e) + [ConversionNotAvailable(startunit, endunit)]
  {
  }

  /** A well-formed table never makes the engine divide by zero. */
  lemma NoDivisionByZero(t: Table, x: real, startunit: string, endunit: string, verbose: bool)
    requires WellFormed(t)
    ensures ConvertUnit(t, x, startunit, endunit, verbose) != Err(ZeroDivisionError)
  {
    match PlanConversion(t, startunit, endunit)
    case Err(err) =>
    case Ok(plan) =>
  }

  /** Multiplying back by the inverse factor undoes a conversion. */
  lemma Cancel(x: real, a: real, f: real, b: real)
    requires a != 0.0 && f != 0.0 && b != 0.0
    ensures Scaled(Scaled(x, a, f, b), b, 1.0 / f, a) == x
    ensures Scaled(Scaled(x, a, 1.0 / f, b), b, f, a) == x
  {
    calc {
      Scaled(Scaled(x, a, f, b), b, 1.0 / f, a);
      == (x * a * f / b) * b * (1.0 / f) / a;
      == x * a * f * (1.0 / f) / a;
      == x;
    }
    calc {
      Scaled(Scaled(x, a, 1.0 / f, b), b, f, a);
      == (x * a * (1.0 / f) / b) * b * f / a;
      == x * a * (1.0 / f) * f / a;
      == x;
    }
  }

  /**
   * Converting a value from one unit string to another and back gives it back exactly, over the
   * reals: one direction uses the stored factor F, the other 1/F.
   */
  lemma RoundTrip(t: Table, x: real, startunit: string, endunit: string)
    requires WellFormed(t)
    requires Value(ConvertUnit(t, x, startunit, endunit, false)).Some?
    ensures var y := Value(ConvertUnit(t, x, startunit, endunit, false)).value;
            Value(ConvertUnit(t, y, endunit, startunit, false)) == Some(x)
  {
    var plan := PlanConversion(t, startunit, endunit).value;
    var s, e := plan.start, plan.end;
    var y := Value(ConvertUnit(t, x, startunit, endunit, false)).value;
    if (s.Base(), e.Base()) in t {
      var f := t[(s.Base(), e.Base())];
      ForwardConversion(t, x, startunit, endunit, s, e);
      ReverseConversion(t, y, endunit, startunit, e, s);
      Cancel(x, s.Scale(), f, e.Scale());
    } else {
      var f := t[(e.Base(), s.Base())];
      ReverseConversion(t, x, startunit, endunit, s, e);
      ForwardConversion(t, y, endunit, startunit, e, s);
      Cancel(x, s.Scale(), f, e.Scale());
    }
  }

  /** The numeric result of a conversion: its conv when it returned one, else None. */
  function Value(r: Result<Conversion<real>, PyError>): Option<real>
  {
    if r.Ok? then r.value.conv else None
  }

  /** The factor the engine finds for two resolved units, when it finds one. */
  function Factor(t: Table, s: Resolved, e: Resolved): Option<real>
  {
    var f := Lookup(t, s.Base(), e.Base());
    if f.Ok? then f.value else None
  }

  /** The numeric outcome of convert_unit depends on the two resolutions and the factor alone. */
  lemma ValueOf(t: Table, x: real, startunit: string, endunit: string, verbose: bool, s: Resolved, e: Resolved)
    requires Resolve(Units(t), startunit) == Ok(s) && Resolve(Units(t), endunit) == Ok(e)
    ensures Value(ConvertUnit(t, x, startunit, endunit, verbose))
            == if Factor(t, s, e).Some? then Some(Scaled(x, s.Scale(), Factor(t, s, e).value, e.Scale())) else None
    ensures ConvertUnit(t, x, startunit, endunit, verbose).Ok? == Lookup(t, s.Base(), e.Base()).Ok?
  {
  }

  /** A conversion that produced a number used the factor the engine finds, in the source's formula. */
  lemma ValueIsScaled(t: Table, x: real, startunit: string, endunit: string, s: Resolved, e: Resolved)
    requires Resolve(Units(t), startunit) == Ok(s) && Resolve(Units(t), endunit) == Ok(e)
    requires Value(ConvertUnit(t, x, startunit, endunit, false)).Some?
    ensures Factor(t, s, e).Some?
    ensures Value(ConvertUnit(t, x, startunit, endunit, false)).value
            == Scaled(x, s.Scale(), Factor(t, s, e).value, e.Scale())
  {
    ValueOf(t, x, startunit, endunit, false, s, e);
  }

  /** Multiplying the start scale in or dividing the end scale out of the source's formula. */
  lemma ScaledPrefix(x: real, pre: real, f: real, post: real, k: real)
    requires post != 0.0 && k != 0.0
    ensures Scaled(x, k, f, post) == k * Scaled(x, 1.0, f, post)
    ensures Scaled(x, pre, f, k) == Scaled(x, pre, f, 1.0) / k
  {
  }

  /**
   * Prefix linearity on the start side: converting from prefix + unit is converting from unit
   * and multiplying by the prefix's scale, unless the whole string is itself a base unit.
   */
  lemma PrefixLinearStart(t: Table, x: real, p: Prefix, u: string, endunit: string)
    requires u in Units(t) && [p] + u !in Units(t)
    ensures ConvertUnit(t, x, [p] + u, endunit, false).Ok? == ConvertUnit(t, x, u, endunit, false).Ok?
    ensures Value(ConvertUnit(t, x, [p] + u, endunit, false)).Some?
            == Value(ConvertUnit(t, x, u, endunit, false)).Some?
    ensures Value(ConvertUnit(t, x, u, endunit, false)).Some? ==>
              Value(ConvertUnit(t, x, [p] + u, endunit, false)).value
              == PrefixScale(p) * Value(ConvertUnit(t, x, u, endunit, false)).value
  {
    assert ([p] + u)[0] == p && ([p] + u)[1..] == u;
    var units := Units(t);
    assert Resolve(units, [p] + u) == Ok(Prefixed(p, u));
    assert Resolve(units, u) == Ok(Whole(u));
    var end := Resolve(units, endunit);
    if end.Ok? {
      var e := end.value;
      ValueOf(t, x, [p] + u, endunit, false, Prefixed(p, u), e);
      ValueOf(t, x, u, endunit, false, Whole(u), e);
      if Factor(t, Whole(u), e).Some? {
        ScaledPrefix(x, 1.0, Factor(t, Whole(u), e).value, e.Scale(), PrefixScale(p));
      }
    }
  }

  /**
   * Prefix linearity on the end side: converting to prefix + unit is converting to unit and
   * dividing by the prefix's scale, unless the whole string is itself a base unit.
   */
  lemma PrefixLinearEnd(t: Table, x: real, startunit: string, p: Prefix, u: string)
    requires u in Units(t) && [p] + u !in Units(t)
    ensures ConvertUnit(t, x, startunit, [p] + u, false).Ok? == ConvertUnit(t, x, startunit, u, false).Ok?
    ensures Value(ConvertUnit(t, x, startunit, [p] + u, false)).Some?
            == Value(ConvertUnit(t, x, startunit, u, false)).Some?
    ensures Value(ConvertUnit(t, x, startunit, u, false)).Some? ==>
              Value(ConvertUnit(t, x, startunit, [p] + u, false)).value
              == Value(ConvertUnit(t, x, startunit, u, false)).value / PrefixScale(p)
  {
    assert ([p] + u)[0] == p && ([p] + u)[1..] == u;
    var units := Units(t);
    assert Resolve(units, [p] + u) == Ok(Prefixed(p, u));
    assert Resolve(units, u) == Ok(Whole(u));
    var start := Resolve(units, startunit);
    if start.Ok? {
      var s := start.value;
      ValueOf(t, x, startunit, [p] + u, false, s, Prefixed(p, u));
      ValueOf(t, x, startunit, u, false, s, Whole(u));
      if Factor(t, s, Whole(u)).Some? {
        ScaledPrefix(x, s.Scale(), Factor(t, s, Whole(u)).value, 1.0, PrefixScale(p));
      }
    }
  }

  /**
   * An absolute size for every base unit (its value in some reference unit of its family) that
   * every table entry agrees with: 1 src = F dst means size(src) = F * size(dst).
   */
  ghost predicate Scales(t: Table, size: map<string, real>)
  {
    && (forall u | u in Units(t) :: u in size && size[u] > 0.0)
    && (forall p | p in t :: p.0 in size && p.1 in size && t[p] * size[p.1] == size[p.0])
  }

  /** The absolute size of a resolved unit string: its prefix scale times its base unit's size. */
  function SizeOf(size: map<string, real>, r: Resolved): real
  {
    if r.Base() in size then r.Scale() * size[r.Base()] else 0.0
  }

  /** x measured in a unit of size a, re-expressed in a unit of size b. */
  function Ratio(x: real, a: real, b: real): real
    requires b != 0.0
  {
    x * a / b
  }

  /** The source's formula, when the factor is a ratio of sizes, is a ratio of sizes too. */
  lemma RatioOfScales(x: real, pre: real, f: real, post: real, a: real, b: real, sa: real, sb: real)
    requires pre != 0.0 && post != 0.0 && a > 0.0 && b > 0.0
    requires f * b == a && sa == pre * a && sb == post * b
    ensures sb != 0.0
    ensures Scaled(x, pre, f, post) == Ratio(x, sa, sb)
  {
    assert f == a / b;
  }

  /** Every entry of a table that sizes its units consistently relates two positive sizes. */
  lemma EntryRatio(t: Table, size: map<string, real>, p: (string, string))
    requires Scales(t, size) && p in t
    ensures p.0 in size && p.1 in size && size[p.0] > 0.0 && size[p.1] > 0.0
    ensures t[p] * size[p.1] == size[p.0]
  {
    assert p.0 in Units(t) && p.1 in Units(t);
  }

  /** The inverse of a factor that relates two sizes relates them the other way round. */
  lemma InverseRatio(f: real, g: real, a: real, b: real)
    requires f * g == 1.0 && g * a == b
    ensures f * b == a
  {
    assert f * b == (f * g) * a;
  }

  /** The factor the engine finds for two resolved units, if any, is the ratio of their two base sizes. */
  ghost predicate FactorAgrees(t: Table, size: map<string, real>, s: Resolved, e: Resolved)
  {
    Factor(t, s, e).Some? ==>
      && s.Base() in size && e.Base() in size && size[s.Base()] > 0.0 && size[e.Base()] > 0.0
      && Factor(t, s, e).value * size[e.Base()] == size[s.Base()]
  }

  /** Whichever entry the engine uses, the factor it finds is the ratio of the two base sizes. */
  lemma FactorIsSizeRatio(t: Table, size: map<string, real>, s: Resolved, e: Resolved)
    requires Scales(t, size)
    requires Factor(t, s, e).Some?
    ensures s.Base() in size && e.Base() in size && size[s.Base()] > 0.0 && size[e.Base()] > 0.0
    ensures Factor(t, s, e).value * size[e.Base()] == size[s.Base()]
    ensures FactorAgrees(t, size, s, e)
  {
    var a, b := s.Base(), e.Base();
    if (a, b) in t {
      EntryRatio(t, size, (a, b));
    } else {
      EntryRatio(t, size, (b, a));
      InverseRatio(Factor(t, s, e).value, t[(b, a)], size[a], size[b]);
    }
  }

  /** The source's formula applied with the factor the engine finds is a ratio of sizes. */
  lemma ScaledFactorIsSizeRatio(size: map<string, real>, x: real, v: real, s: Resolved, e: Resolved, f: real)
    requires s.Base() in size && e.Base() in size && size[s.Base()] > 0.0 && size[e.Base()] > 0.0
    requires f * size[e.Base()] == size[s.Base()]
    requires v == Scaled(x, s.Scale(), f, e.Scale())
    ensures SizeOf(size, s) > 0.0 && SizeOf(size, e) > 0.0
    ensures v == Ratio(x, SizeOf(size, s), SizeOf(size, e))
  {
    var pre, post := s.Scale(), e.Scale();
    var a, b := size[s.Base()], size[e.Base()];
    ProductPositive(pre, a);
    ProductPositive(post, b);
    assert SizeOf(size, s) == pre * a && SizeOf(size, e) == post * b;
    RatioOfScales(x, pre, f, post, a, b, SizeOf(size, s), SizeOf(size, e));
  }

  /**
   * With sizes that agree with the factor the engine finds, every conversion the engine makes
   * is the ratio of the absolute sizes of the two unit strings (prefix scale times base size).
   */
  lemma ConversionIsScaleRatio(t: Table, size: map<string, real>, x: real, startunit: string, endunit: string, s: Resolved, e: Resolved)
    requires FactorAgrees(t, size, s, e)
    requires Resolve(Units(t), startunit) == Ok(s) && Resolve(Units(t), endunit) == Ok(e)
    requires Value(ConvertUnit(t, x, startunit, endunit, false)).Some?
    ensures SizeOf(size, s) > 0.0 && SizeOf(size, e) > 0.0
    ensures Value(ConvertUnit(t, x, startunit, endunit, false)).value
            == Ratio(x, SizeOf(size, s), SizeOf(size, e))
  {
    ValueIsScaled(t, x, startunit, endunit, s, e);
    ScaledFactorIsSizeRatio(size, x, Value(ConvertUnit(t, x, startunit, endunit, false)).value, s, e, Factor(t, s, e).value);
  }

  /** Two successive ratios with a common middle term collapse into one. */
  lemma ChainRatio(x: real, a: real, b: real, c: real)
    requires b != 0.0 && c != 0.0
    ensures Ratio(Ratio(x, a, b), b, c) == Ratio(x, a, c)
  {
  }

  /**
   * Chained conversions agree with the direct one: going from a to b and then from b to c gives
   * what going from a to c gives, whenever the table sizes its units consistently.
   */
  lemma ChainedConversion(t: Table, size: map<string, real>, x: real, a: string, b: string, c: string)
    requires Scales(t, size)
    requires Value(ConvertUnit(t, x, a, b, false)).Some?
    requires Value(ConvertUnit(t, Value(ConvertUnit(t, x, a, b, false)).value, b, c, false)).Some?
    requires Value(ConvertUnit(t, x, a, c, false)).Some?
    ensures Value(ConvertUnit(t, Value(ConvertUnit(t, x, a, b, false)).value, b, c, false))
            == Value(ConvertUnit(t, x, a, c, false))
  {
    var units := Units(t);
    assert Resolve(units, a).Ok? && Resolve(units, b).Ok? && Resolve(units, c).Ok?;
    var ra, rb, rc := Resolve(units, a).value, Resolve(units, b).value, Resolve(units, c).value;
    var y := Value(ConvertUnit(t, x, a, b, false)).value;
    ValueIsScaled(t, x, a, b, ra, rb);
    ValueIsScaled(t, y, b, c, rb, rc);
    ValueIsScaled(t, x, a, c, ra, rc);
    FactorIsSizeRatio(t, size, ra, rb);
    FactorIsSizeRatio(t, size, rb, rc);
    FactorIsSizeRatio(t, size, ra, rc);
    ConversionIsScaleRatio(t, size, x, a, b, ra, rb);
    ConversionIsScaleRatio(t, size, y, b, c, rb, rc);
    ConversionIsScaleRatio(t, size, x, a, c, ra, rc);
    ChainRatio(x, SizeOf(size, ra), SizeOf(size, rb), SizeOf(size, rc));
  }

  /** The base units of two tables merged into one dictionary are the base units of either. */
  lemma UnitsOfUnion(t1: Table, t2: Table)
    ensures Units(t1 + t2) == Units(t1) + Units(t2)
  {
    forall u | u in Units(t1 + t2)
      ensures u in Units(t1) + Units(t2)
    {
      var p :| p in t1 + t2 && (p.0 == u || p.1 == u);
      assert p in t1 || p in t2;
    }
    forall u | u in Units(t1) + Units(t2)
      ensures u in Units(t1 + t2)
    {
      if u in Units(t1) {
        var p :| p in t1 && (p.0 == u || p.1 == u);
        assert p in t1 + t2;
      } else {
        var p :| p in t2 && (p.0 == u || p.1 == u);
        assert p in t1 + t2;
      }
    }
  }

  /** Equal factors give equal products. */
  lemma SameProduct(f: real, a: real, b: real, f': real, a': real, b': real)
    requires f * a == b && f' == f && a' == a && b' == b
    ensures f' * a' == b'
  {
  }

  /** Two well-formed tables over disjoint base units merge into a well-formed table. */
  lemma WellFormedUnion(t1: Table, t2: Table)
    requires WellFormed(t1) && WellFormed(t2)
    requires Units(t1) !! Units(t2)
    ensures WellFormed(t1 + t2)
  {
    UnitsOfUnion(t1, t2);
    forall p | p in t1 + t2
      ensures p.0 != p.1 && (p.1, p.0) !in t1 + t2 && (t1 + t2)[p] > 0.0
    {
      if p in t2 {
        assert p.0 in Units(t2);
        assert (p.1, p.0) !in t1;
      } else {
        assert p.0 in Units(t1);
        assert (p.1, p.0) !in t2;
      }
    }
  }

  /** An entry of the second table keeps its ratio in the merged table and size map. */
  lemma ScalesUnionRight(t1: Table, t2: Table, size1: map<string, real>, size2: map<string, real>, p: (string, string))
    requires Scales(t2, size2)
    requires p in t2
    ensures p.0 in size1 + size2 && p.1 in size1 + size2
    ensures (t1 + t2)[p] * (size1 + size2)[p.1] == (size1 + size2)[p.0]
  {
    assert p.0 in Units(t2) && p.1 in Units(t2);
    SameProduct(t2[p], size2[p.1], size2[p.0], (t1 + t2)[p], (size1 + size2)[p.1], (size1 + size2)[p.0]);
  }

  /** An entry only in the first table keeps its ratio in the merged table and size map. */
  lemma ScalesUnionLeft(t1: Table, t2: Table, size1: map<string, real>, size2: map<string, real>, p: (string, string))
    requires Scales(t1, size1)
    requires Units(t1) !! size2.Keys
    requires p in t1 && p !in t2
    ensures p.0 in size1 + size2 && p.1 in size1 + size2
    ensures (t1 + t2)[p] * (size1 + size2)[p.1] == (size1 + size2)[p.0]
  {
    assert p.0 in Units(t1) && p.1 in Units(t1);
    SameProduct(t1[p], size1[p.1], size1[p.0], (t1 + t2)[p], (size1 + size2)[p.1], (size1 + size2)[p.0]);
  }

  /**
   * Two tables that agree with their own size maps, whose second size map says nothing about
   * the first table's units, merge into a table that agrees with the merged size map.
   */
  lemma ScalesUnion(t1: Table, t2: Table, size1: map<string, real>, size2: map<string, real>)
    requires Scales(t1, size1) && Scales(t2, size2)
    requires Units(t1) !! size2.Keys
    ensures Scales(t1 + t2, size1 + size2)
  {
    UnitsOfUnion(t1, t2);
    forall p | p in t1 + t2
      ensures p.0 in size1 + size2 && p.1 in size1 + size2
      ensures (t1 + t2)[p] * (size1 + size2)[p.1] == (size1 + size2)[p.0]
    {
      if p in t2 {
        ScalesUnionRight(t1, t2, size1, size2, p);
      } else {
        ScalesUnionLeft(t1, t2, size1, size2, p);
      }
    }
  }

  /** Three sizes that two chained entries and a direct entry all agree with force factor f * g to be h. */
  lemma TriangleRatio(f: real, g: real, h: real, sa: real, sb: real, sc: real)
    requires sc > 0.0
    requires f * sb == sa && g * sc == sb && h * sc == sa
    ensures f * g == h
  {
    assert (f * g) * sc == h * sc;
  }

  /**
   * A table whose entries a -> b and b -> c do not multiply to its entry a -> c agrees with no
   * size map at all, so the chain law cannot hold for it.
   */
  lemma InconsistentTriangle(t: Table, size: map<string, real>, a: string, b: string, c: string)
    requires (a, b) in t && (b, c) in t && (a, c) in t
    requires t[(a, b)] * t[(b, c)] != t[(a, c)]
    ensures !Scales(t, size)
  {
    if Scales(t, size) {
      assert c in Units(t);
      TriangleRatio(t[(a, b)], t[(b, c)], t[(a, c)], size[a], size[b], size[c]);
    }
  }

  /** The base units of four tables merged into one dictionary. */
  lemma UnitsOfFour(t1: Table, t2: Table, t3: Table, t4: Table)
    ensures Units(t1 + t2 + t3 + t4) == Units(t1) + Units(t2) + Units(t3) + Units(t4)
  {
    UnitsOfUnion(t1, t2);
    UnitsOfUnion(t1 + t2, t3);
    UnitsOfUnion(t1 + t2 + t3, t4);
  }

  /** Four well-formed tables over pairwise disjoint base units merge into a well-formed table. */
  lemma WellFormedFour(t1: Table, t2: Table, t3: Table, t4: Table)
    requires WellFormed(t1) && WellFormed(t2) && WellFormed(t3) && WellFormed(t4)
    requires Units(t1) !! Units(t2) && Units(t1) !! Units(t3) && Units(t1) !! Units(t4)
    requires Units(t2) !! Units(t3) && Units(t2) !! Units(t4) && Units(t3) !! Units(t4)
    ensures WellFormed(t1 + t2 + t3 + t4)
  {
    UnitsOfUnion(t1, t2);
    UnitsOfUnion(t1 + t2, t3);
    WellFormedUnion(t1, t2);
    WellFormedUnion(t1 + t2, t3);
    WellFormedUnion(t1 + t2 + t3, t4);
  }

  /**
   * Four tables that agree with their own size maps, where no size map names a unit of an
   * earlier table, merge into a table that agrees with the merged size map.
   */
  lemma ScalesFour(t1: Table, t2: Table, t3: Table, t4: Table,
                   s1: map<string, real>, s2: map<string, real>, s3: map<string, real>, s4: map<string, real>)
    requires Scales(t1, s1) && Scales(t2, s2) && Scales(t3, s3) && Scales(t4, s4)
    requires Units(t1) !! s2.Keys && Units(t1) !! s3.Keys && Units(t1) !! s4.Keys
    requires Units(t2) !! s3.Keys && Units(t2) !! s4.Keys && Units(t3) !! s4.Keys
    ensures Scales(t1 + t2 + t3 + t4, s1 + s2 + s3 + s4)
  {
    UnitsOfUnion(t1, t2);
    UnitsOfUnion(t1 + t2, t3);
    ScalesUnion(t1, t2, s1, s2);
    ScalesUnion(t1 + t2, t3, s1 + s2, s3);
    ScalesUnion(t1 + t2 + t3, t4, s1 + s2 + s3, s4);
  }

  /** An entry of an earlier table survives a merge with a table that does not use its start unit. */
  lemma EntryOfUnion(t1: Table, t2: Table, p: (string, string))
    requires p in t1 && p.0 !in Units(t2)
    ensures p in t1 + t2 && (t1 + t2)[p] == t1[p]
  {
  }

  /** A unit used only by one table and a unit used only by the other are unrelated in their merge. */
  lemma UnrelatedAcross(t1: Table, t2: Table, a: string, b: string)
    requires a !in Units(t2) && b !in Units(t1)
    ensures !Related(t1 + t2, a, b)
  {
  }

  /** Four pairwise disjoint sets of units have as many members together as apart. */
  lemma CardOfFour(a: set<string>, b: set<string>, c: set<string>, d: set<string>)
    requires a !! b && a !! c && a !! d && b !! c && b !! d && c !! d
    ensures |a + b + c + d| == |a| + |b| + |c| + |d|
  {
  }
}
