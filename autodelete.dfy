/** The purge time of an event: twelve hours after the event ends, where the
    end is the event's local day at the "HH:MM" end time, or 23:59:59.999 when
    there is no end time. Two hooks compute it: one for a document being
    created, one for the update object of a find-and-update. */
module AutoDelete {
  import opened Wrappers
  import opened JsText
  import opened Clock

  /** Twelve hours, in milliseconds. */
  const PurgeDelayMs: int := 12 * 60 * 60 * 1000

  /** `const [horas, minutos] = horaFin.split(':')`, each through `parseInt`;
      without a ':' the minutes are `undefined`, which parses to NaN (`None`). */
  function HourMinute(horaFin: string): (Option<int>, Option<int>) {
    var parts := Split(horaFin, ':');
    (ParseInt(parts[0]), if |parts| > 1 then ParseInt(parts[1]) else None)
  }

  /** The end of the event: `setHours(H, M, 0, 0)` on the date when the end
      time is truthy, `setHours(23, 59, 59, 999)` otherwise. */
  function EventEnd(fecha: Instant, horaFin: Option<string>, tz: int): Instant {
    if Truthy(horaFin) then
      var hm := HourMinute(horaFin.value);
      WithHours(fecha, hm.0, hm.1, 0, 0, tz)
    else
      WithHours(fecha, Some(23), Some(59), 59, 999, tz)
  }

  /** The purge time: the end of the event plus twelve hours. */
  function PurgeTime(fecha: Instant, horaFin: Option<string>, tz: int): Instant {
    Plus(EventEnd(fecha, horaFin, tz), PurgeDelayMs)
  }

  predicate AllDecDigits(s: string) {
    s != [] && forall k :: 0 <= k < |s| ==> IsDecDigit(s[k])
  }

  /** Two runs of decimal digits around ':' parse to their decimal values. */
  lemma HourMinuteOfDigits(hs: string, ms: string)
    requires AllDecDigits(hs) && AllDecDigits(ms)
    ensures forall k :: 0 <= k < |hs| ==> IsDigitIn(hs[k], 10)
    ensures forall k :: 0 <= k < |ms| ==> IsDigitIn(ms[k], 10)
    ensures HourMinute(hs + [':'] + ms) == (Some(DigitsValue(hs, 10) as int), Some(DigitsValue(ms, 10) as int))
  {
    assert ':' !in hs by {
      forall k | 0 <= k < |hs| ensures hs[k] != ':' { assert IsDecDigit(hs[k]); }
    }
    assert ':' !in ms by {
      forall k | 0 <= k < |ms| ensures ms[k] != ':' { assert IsDecDigit(ms[k]); }
    }
    SplitAround(hs, ms, ':');
    SplitWithoutSeparator(hs, ':');
    SplitWithoutSeparator(ms, ':');
    var parts := Split(hs + [':'] + ms, ':');
    assert parts == [hs, ms];
    ParseIntDecimal(hs, "");
    ParseIntDecimal(ms, "");
    assert hs + "" == hs && ms + "" == ms;
  }

  /** An end time whose parts parse to `h` and `m` (for an end time "H:M" of
      decimal digits, `HourMinuteOfDigits` gives their values) puts the end `h`
      hours and `m` minutes after the local day start, seconds and milliseconds zero. */
  lemma EventEndOfHourMinute(t: int, horaFin: string, h: int, m: int, tz: int)
    requires horaFin != "" && HourMinute(horaFin) == (Some(h), Some(m))
    ensures EventEnd(At(t), Some(horaFin), tz) == TimeClip(LocalDayStart(t, tz) + h * 3_600_000 + m * 60_000)
  {
  }

  /** Without an end time, the end is 23:59:59.999 of the local day. */
  lemma EventEndAllDay(t: int, horaFin: Option<string>, tz: int)
    requires !Truthy(horaFin)
    ensures EventEnd(At(t), horaFin, tz) == TimeClip(LocalDayStart(t, tz) + 86_399_999)
  {
  }

  /** The purge time is exactly twelve hours (43,200,000 ms) after the end. */
  lemma PurgeTwelveHoursAfterEnd(fecha: Instant, horaFin: Option<string>, tz: int)
    requires EventEnd(fecha, horaFin, tz).At?
    requires EventEnd(fecha, horaFin, tz).ms + 43_200_000 <= MaxTimeValue
    ensures PurgeTime(fecha, horaFin, tz) == At(EventEnd(fecha, horaFin, tz).ms + 43_200_000)
  {
  }

  /** `parseInt` finds no number at the start of `s`: it is empty or starts
      with neither white space, a sign nor a digit. */
  predicate NoNumberStart(s: string) {
    s == [] || (!IsSpace(s[0]) && s[0] != '-' && s[0] != '+' && !IsDecDigit(s[0]))
  }

  /** The hour is NaN when the text before the first ':' starts with no number. */
  lemma HourPartNaN(horaFin: string)
    requires horaFin != "" && NoNumberStart(horaFin)
    ensures HourMinute(horaFin).0 == None
  {
    var parts := Split(horaFin, ':');
    JoinSplit(horaFin, ':');
    if parts[0] != [] {
      assert parts[0][0] == horaFin[0] by {
        if |parts| > 1 {
          assert horaFin == parts[0] + [':'] + Join(parts[1..], ':');
        }
      }
    }
    ParseIntNaN(parts[0]);
  }

  /** Without ':' the minutes are `undefined`, so NaN. */
  lemma NoColonNaN(horaFin: string)
    requires ':' !in horaFin
    ensures HourMinute(horaFin).1 == None
  {
    SplitWithoutSeparator(horaFin, ':');
  }

  /** The minute is NaN when the text after the first ':' starts with no
      number (a second ':' right after the first included). */
  lemma MinutePartNaN(horaFin: string)
    requires ':' in horaFin && NoNumberStart(horaFin[IndexOf(horaFin, ':') + 1..])
    ensures HourMinute(horaFin).1 == None
  {
    var i := IndexOf(horaFin, ':');
    var hs, rest := horaFin[..i], horaFin[i + 1..];
    assert horaFin == hs + [':'] + rest;
    MinuteNaNOfParts(hs, rest);
  }

  lemma MinuteNaNOfParts(hs: string, rest: string)
    requires ':' !in hs && NoNumberStart(rest)
    ensures HourMinute(hs + [':'] + rest).1 == None
  {
    SplitAround(hs, rest, ':');
    SplitWithoutSeparator(hs, ':');
    FirstPartNoNumber(rest);
    MinuteOf(hs + [':'] + rest);
  }

  lemma MinuteOf(horaFin: string)
    ensures |Split(horaFin, ':')| > 1 ==> HourMinute(horaFin).1 == ParseInt(Split(horaFin, ':')[1])
  {
  }

  /** The first part of a text that starts with no number starts with no
      number, so it parses to NaN. */
  lemma FirstPartNoNumber(rest: string)
    requires NoNumberStart(rest)
    ensures NoNumberStart(Split(rest, ':')[0]) && ParseInt(Split(rest, ':')[0]) == None
  {
    FirstPartStart(rest);
    ParseIntNaN(Split(rest, ':')[0]);
  }

  lemma FirstPartStart(rest: string)
    requires NoNumberStart(rest)
    ensures NoNumberStart(Split(rest, ':')[0])
  {
    if rest != [] {
      assert rest == [rest[0]] + rest[1..];
      SplitCons(rest[0], rest[1..], ':');
    }
  }

  /** A NaN hour or minute makes the end, and so the purge time, an invalid date. */
  lemma PurgeTimeOfNaN(fecha: Instant, horaFin: string, tz: int)
    requires horaFin != "" && (HourMinute(horaFin).0.None? || HourMinute(horaFin).1.None?)
    ensures PurgeTime(fecha, Some(horaFin), tz) == Invalid
  {
  }

  /** An end time whose hour part or minute part starts with no number gives
      an invalid date, and so does one without ':'. */
  lemma PurgeTimeInvalidEndTime(fecha: Instant, horaFin: string, tz: int)
    requires horaFin != ""
    requires NoNumberStart(horaFin) || ':' !in horaFin
             || (':' in horaFin && NoNumberStart(horaFin[IndexOf(horaFin, ':') + 1..]))
    ensures PurgeTime(fecha, Some(horaFin), tz) == Invalid
  {
    if NoNumberStart(horaFin) {
      HourPartNaN(horaFin);
    } else if ':' !in horaFin {
      NoColonNaN(horaFin);
    } else {
      MinutePartNaN(horaFin);
    }
    PurgeTimeOfNaN(fecha, horaFin, tz);
  }

  /** "12:ab" has a number for the hour but none for the minute. */
  lemma PurgeTimeExampleBadMinute(fecha: Instant, tz: int)
    ensures PurgeTime(fecha, Some("12:ab"), tz) == Invalid
  {
    var e := "12:ab";
    IndexOfIs(e, ':', 2);
    assert e[3..] == "ab";
    PurgeTimeInvalidEndTime(fecha, e, tz);
  }

  /** An invalid date stays invalid. */
  lemma PurgeTimeOfInvalidDate(horaFin: Option<string>, tz: int)
    ensures PurgeTime(Invalid, horaFin, tz) == Invalid
  {
  }

  /** "18:30" parses to hour 18 and minute 30. */
  lemma HourMinuteExample()
    ensures HourMinute("18:30") == (Some(18), Some(30))
  {
    assert "18" + [':'] + "30" == "18:30";
    HourMinuteOfDigits("18", "30");
    assert DigitsValue("18", 10) == 18 by {
      assert "18"[..1] == "1";
      assert ""[..0] == "";
    }
    assert DigitsValue("30", 10) == 30 by {
      assert "30"[..1] == "3";
    }
  }

  /** An event dated 1970-01-02T10:00:00.000Z in a UTC process (offset 0)
      ending at "18:30" is purged at 1970-01-03T06:30:00.000Z. */
  lemma PurgeTimeExampleEndTime()
    ensures PurgeTime(At(122_400_000), Some("18:30"), 0) == At(196_200_000)
  {
    HourMinuteExample();
    PurgeTimeOfHourMinute(122_400_000, "18:30", 18, 30, 0);
    DayStartExample();
    assert TimeClip(86_400_000 + 18 * 3_600_000 + 30 * 60_000) == At(153_000_000);
  }

  lemma PurgeTimeOfHourMinute(t: int, horaFin: string, h: int, m: int, tz: int)
    requires horaFin != "" && HourMinute(horaFin) == (Some(h), Some(m))
    ensures PurgeTime(At(t), Some(horaFin), tz) == Plus(TimeClip(LocalDayStart(t, tz) + h * 3_600_000 + m * 60_000), PurgeDelayMs)
  {
    EventEndOfHourMinute(t, horaFin, h, m, tz);
  }

  /** The same event without an end time is purged at 1970-01-03T11:59:59.999Z. */
  lemma PurgeTimeExampleAllDay()
    ensures PurgeTime(At(122_400_000), None, 0) == At(215_999_999)
  {
    DayStartExample();
  }

  /** 1970-01-02T10:00:00.000Z lies in the UTC day that starts at 1970-01-02T00:00:00.000Z. */
  lemma DayStartExample()
    ensures LocalDayStart(122_400_000, 0) == 86_400_000
  {
    assert 122_400_000 - 0 * 60_000 == 122_400_000;
    assert 122_400_000 % 86_400_000 == 36_000_000;
  }

  /** Setting a wall-clock time of the day twice is setting it once: a date
      already moved to the end of the event ends at the same instant. */
  lemma WithHoursStable(t: int, h: int, m: int, tz: int)
    requires 0 <= h < 24 && 0 <= m < 60
    requires WithHours(At(t), Some(h), Some(m), 0, 0, tz).At?
    ensures WithHours(WithHours(At(t), Some(h), Some(m), 0, 0, tz), Some(h), Some(m), 0, 0, tz)
         == WithHours(At(t), Some(h), Some(m), 0, 0, tz)
  {
    var d := LocalDayStart(t, tz);
    var e := d + h * 3_600_000 + m * 60_000;
    assert e < d + 86_400_000;
    LocalDayStartOfDay(t, tz, e);
  }

  /** An event document, `this` of the create hook. */
  class EventDoc {
    var titulo: Option<string>
    var descripcion: Option<string>
    var fecha: Option<JsDate>
    var ubicacion: Option<string>
    var horaInicio: Option<string>
    var horaFin: Option<string>
    var fechaEliminacion: Option<Instant>

    constructor (titulo: Option<string>, descripcion: Option<string>, fecha: Option<JsDate>,
                 ubicacion: Option<string>, horaInicio: Option<string>, horaFin: Option<string>)
      ensures this.titulo == titulo && this.descripcion == descripcion && this.fecha == fecha
      ensures this.ubicacion == ubicacion && this.horaInicio == horaInicio && this.horaFin == horaFin
      ensures fechaEliminacion == None
    {
      this.titulo := titulo;
      this.descripcion := descripcion;
      this.fecha := fecha;
      this.ubicacion := ubicacion;
      this.horaInicio := horaInicio;
      this.horaFin := horaFin;
      fechaEliminacion := None;
    }

    /** The create hook: only when the date is set and no purge time exists
        yet, computes it on a copy of the date, so `fecha` keeps its value and
        only `fechaEliminacion` is written. */
    method CalcularFechaEliminacion(tz: int)
      modifies this`fechaEliminacion
      ensures fecha.Some? && old(fechaEliminacion).None? ==>
        fechaEliminacion == Some(PurgeTime(fecha.value.time, horaFin, tz))
      ensures !(fecha.Some? && old(fechaEliminacion).None?) ==> fechaEliminacion == old(fechaEliminacion)
      ensures fecha.Some? ==> fecha.value.time == old(fecha.value.time)
    {
      if fecha.Some? && fechaEliminacion.None? {
        var fecha0 := fecha.value.time;
        var fechaEvento := new JsDate(fecha0);
        if Truthy(horaFin) {
          var hm := HourMinute(horaFin.value);
          fechaEvento.SetHours(hm.0, hm.1, 0, 0, tz);
        } else {
          fechaEvento.SetHours(Some(23), Some(59), 59, 999, tz);
        }
        assert fechaEvento.time == EventEnd(fecha0, horaFin, tz);
        fechaEliminacion := Some(Plus(fechaEvento.time, PurgeDelayMs));
      }
    }
  }

  /** The create hook never overwrites a purge time: running it a second time changes nothing. */
  method CreateHookRunsOnce(doc: EventDoc, tz: int)
    modifies doc`fechaEliminacion
    ensures doc.fecha.Some? ==> doc.fechaEliminacion.Some?
    ensures old(doc.fechaEliminacion).Some? ==> doc.fechaEliminacion == old(doc.fechaEliminacion)
  {
    doc.CalcularFechaEliminacion(tz);
    var first := doc.fechaEliminacion;
    doc.CalcularFechaEliminacion(tz);
    assert doc.fechaEliminacion == first;
  }

  /** The `fecha` of a plain event object: absent, a string, or a `Date` object. */
  datatype FechaValue = Undefined | Text(s: string) | DateRef(date: JsDate)

  predicate FechaTruthy(f: FechaValue) {
    f.DateRef? || (f.Text? && f.s != "")
  }

  /** A plain object of event fields: the update object of a find-and-update,
      or the fields a new event document is built from. */
  class EventFields {
    var titulo: Option<string>
    var descripcion: Option<string>
    var fecha: FechaValue
    var ubicacion: Option<string>
    var horaInicio: Option<string>
    var horaFin: Option<string>
    var fechaEliminacion: Option<Instant>

    constructor (titulo: Option<string>, descripcion: Option<string>, fecha: FechaValue,
                 ubicacion: Option<string>, horaInicio: Option<string>, horaFin: Option<string>)
      ensures this.titulo == titulo && this.descripcion == descripcion && this.fecha == fecha
      ensures this.ubicacion == ubicacion && this.horaInicio == horaInicio && this.horaFin == horaFin
      ensures fechaEliminacion == None
    {
      this.titulo := titulo;
      this.descripcion := descripcion;
      this.fecha := fecha;
      this.ubicacion := ubicacion;
      this.horaInicio := horaInicio;
      this.horaFin := horaFin;
      fechaEliminacion := None;
    }
  }

  /** The update hook: only when the update carries a truthy `fecha` or
      `horaFin`, it adds `fechaEliminacion` and touches nothing else. The base
      date is a copy of the update's date (a string is parsed with `parse`),
      or the current instant `now` when the update has no date. */
  method CalcularFechaEliminacionUpdate(update: EventFields, tz: int, parse: string -> Instant, now: int)
    modifies update`fechaEliminacion
    ensures update.fecha.DateRef? ==>
      update.fechaEliminacion == Some(PurgeTime(update.fecha.date.time, update.horaFin, tz))
    ensures update.fecha.Text? && update.fecha.s != "" ==>
      update.fechaEliminacion == Some(PurgeTime(parse(update.fecha.s), update.horaFin, tz))
    ensures !FechaTruthy(update.fecha) && Truthy(update.horaFin) ==>
      update.fechaEliminacion == Some(PurgeTime(At(now), update.horaFin, tz))
    ensures !FechaTruthy(update.fecha) && !Truthy(update.horaFin) ==>
      update.fechaEliminacion == old(update.fechaEliminacion)
  {
    if FechaTruthy(update.fecha) || Truthy(update.horaFin) {
      var base := match update.fecha
        case DateRef(d) => d.time
        case Text(s) => if s != "" then parse(s) else At(now)
        case Undefined => At(now);
      var fechaEvento := new JsDate(base);
      if Truthy(update.horaFin) {
        var hm := HourMinute(update.horaFin.value);
        fechaEvento.SetHours(hm.0, hm.1, 0, 0, tz);
      } else {
        fechaEvento.SetHours(Some(23), Some(59), 59, 999, tz);
      }
      update.fechaEliminacion := Some(Plus(fechaEvento.time, PurgeDelayMs));
    }
  }
}
