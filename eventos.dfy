/** The event controller: the creation and update handlers shift the request's
    date by the process's time-zone offset, and the update handler builds the
    update object and recomputes the purge time itself. */
module Eventos {
  import opened Wrappers
  import opened JsText
  import opened Clock
  import opened AutoDelete

  /** The six fields read from the request body; a field absent from the body is `None`. */
  datatype EventBody = EventBody(titulo: Option<string>, descripcion: Option<string>, fecha: Option<string>,
                                 ubicacion: Option<string>, horaInicio: Option<string>, horaFin: Option<string>)

  /** `new Date(d.getTime() + d.getTimezoneOffset() * 60000)`: the instant moved
      by the offset, NaN staying NaN. */
  function Shift(t: Instant, tz: int): Instant {
    Plus(t, tz * 60_000)
  }

  /** A falsy body date is passed on as it came: `undefined`, or the empty string. */
  function RawFecha(f: Option<string>): FechaValue {
    match f
    case None => Undefined
    case Some(s) => Text(s)
  }

  /** The shift makes the local wall clock of the stored date read what the UTC
      wall clock of the parsed date read: the stored date's local day begins
      exactly the offset after the parsed date's UTC day. */
  lemma ShiftKeepsWallClock(t: int, tz: int)
    requires Shift(At(t), tz).At?
    ensures Shift(At(t), tz).ms - LocalDayStart(Shift(At(t), tz).ms, tz) == t - LocalDayStart(t, 0)
    ensures LocalDayStart(Shift(At(t), tz).ms, tz) == LocalDayStart(t, 0) + tz * 60_000
  {
  }

  /** A date string read as UTC midnight ("2024-06-01") is stored as local midnight of the same calendar day. */
  lemma ShiftOfUtcMidnight(t: int, tz: int)
    requires t % 86_400_000 == 0 && Shift(At(t), tz).At?
    ensures LocalDayStart(Shift(At(t), tz).ms, tz) == Shift(At(t), tz).ms
  {
    ShiftKeepsWallClock(t, tz);
  }

  /** `createEvento`: the new document holds exactly the six body fields, a
      truthy date parsed and shifted into a new `Date`, and no purge time. The
      save outcome is not modelled; the status is 201. */
  method CreateEvento(body: EventBody, tz: int, parse: string -> Instant) returns (doc: EventFields, status: int)
    ensures fresh(doc)
    ensures doc.titulo == body.titulo && doc.descripcion == body.descripcion && doc.ubicacion == body.ubicacion
    ensures doc.horaInicio == body.horaInicio && doc.horaFin == body.horaFin
    ensures Truthy(body.fecha) ==>
      doc.fecha.DateRef? && fresh(doc.fecha.date) && doc.fecha.date.time == Shift(parse(body.fecha.value), tz)
    ensures !Truthy(body.fecha) ==> doc.fecha == RawFecha(body.fecha)
    ensures doc.fechaEliminacion == None
    ensures status == 201
  {
    var fechaEvento := RawFecha(body.fecha);
    if Truthy(body.fecha) {
      var fechaLocal := parse(body.fecha.value);
      var d := new JsDate(Shift(fechaLocal, tz));
      fechaEvento := DateRef(d);
    }
    doc := new EventFields(body.titulo, body.descripcion, fechaEvento, body.ubicacion, body.horaInicio, body.horaFin);
    status := 201;
  }

  /** `updateEvento`: the update object holds all six body fields, present or
      not. When the date or the end time is truthy it also holds the purge
      time, computed on the update's own `Date` (or on `now` when the date is
      falsy), so `setHours` moves the stored date itself to the end of the
      event. An id that names no event gives 404. */
  method UpdateEvento(body: EventBody, id: string, ids: set<string>, tz: int, parse: string -> Instant, now: int)
    returns (updateData: EventFields, status: int)
    ensures fresh(updateData)
    ensures updateData.titulo == body.titulo && updateData.descripcion == body.descripcion
    ensures updateData.ubicacion == body.ubicacion && updateData.horaInicio == body.horaInicio
    ensures updateData.horaFin == body.horaFin
    ensures Truthy(body.fecha) ==>
      updateData.fecha.DateRef? && fresh(updateData.fecha.date)
      && updateData.fecha.date.time == EventEnd(Shift(parse(body.fecha.value), tz), body.horaFin, tz)
    ensures !Truthy(body.fecha) ==> updateData.fecha == RawFecha(body.fecha)
    ensures updateData.fechaEliminacion.Some? <==> Truthy(body.fecha) || Truthy(body.horaFin)
    ensures Truthy(body.fecha) ==>
      updateData.fechaEliminacion == Some(PurgeTime(Shift(parse(body.fecha.value), tz), body.horaFin, tz))
      && updateData.fechaEliminacion == Some(Plus(updateData.fecha.date.time, PurgeDelayMs))
    ensures !Truthy(body.fecha) && Truthy(body.horaFin) ==>
      updateData.fechaEliminacion == Some(PurgeTime(At(now), body.horaFin, tz))
    ensures status == (if id in ids then 200 else 404)
  {
    var fechaEvento := RawFecha(body.fecha);
    if Truthy(body.fecha) {
      var fechaLocal := parse(body.fecha.value);
      var d := new JsDate(Shift(fechaLocal, tz));
      fechaEvento := DateRef(d);
    }
    updateData := new EventFields(body.titulo, body.descripcion, fechaEvento, body.ubicacion, body.horaInicio, body.horaFin);
    if Truthy(body.fecha) || Truthy(body.horaFin) {
      var fechaEventoActualizada: JsDate;
      if fechaEvento.DateRef? {
        fechaEventoActualizada := fechaEvento.date;
      } else {
        fechaEventoActualizada := new JsDate(At(now));
      }
      var base := fechaEventoActualizada.time;
      if Truthy(body.horaFin) {
        var hm := HourMinute(body.horaFin.value);
        fechaEventoActualizada.SetHours(hm.0, hm.1, 0, 0, tz);
      } else {
        fechaEventoActualizada.SetHours(Some(23), Some(59), 59, 999, tz);
      }
      assert fechaEventoActualizada.time == EventEnd(base, body.horaFin, tz);
      updateData.fechaEliminacion := Some(Plus(fechaEventoActualizada.time, PurgeDelayMs));
    }
    status := if id in ids then 200 else 404;
  }
}
