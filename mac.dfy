/**
 * The MAC column type. A MAC address is a netaddr `EUI`: a 48-bit value and
 * the dialect that decides how it is rendered. Binding renders the value in
 * the unix dialect; loading parses it back and sets the unix dialect.
 *
 * The rendering is injective on 48-bit values, so the stored column is
 * modelled as the value it renders; parsing of caller-supplied literals is a
 * parameter that may fail.
 */
module MacCodec {
  import opened Wrappers

  type U48 = n: nat | n < 0x1_0000_0000_0000

  /** The rendering dialects netaddr offers for EUI-48 values. */
  datatype Dialect = MacEui48 | MacUnix | MacUnixExpanded | MacCisco | MacBare | MacPgsql

  datatype Eui = Eui(value: U48, dialect: Dialect)

  /** What `process_bind_param` may be handed: an `EUI`, or anything else netaddr is asked to parse. */
  datatype BindInput = EuiValue(eui: Eui) | Literal(text: string)

  datatype BindError = InvalidMac(text: string)

  /**
   * `MAC.process_bind_param`: None is passed through; a value that is not yet
   * an `EUI` is parsed (a parse failure is netaddr's error); the value is
   * written in the unix dialect.
   */
  function Bind(value: Option<BindInput>, parse: string -> Option<U48>): (r: Result<Option<U48>, BindError>)
    ensures value.None? ==> r == Ok(None)
    ensures value.Some? && value.value.EuiValue? ==> r == Ok(Some(value.value.eui.value))
    ensures value.Some? && value.value.Literal? ==>
              (r.Err? <==> parse(value.value.text).None?) &&
              (r.Ok? ==> r.value == parse(value.value.text))
  {
    match value
    case None => Ok(None)
    case Some(EuiValue(e)) => Ok(Some(e.value))
    case Some(Literal(t)) =>
      match parse(t)
      case None => Err(InvalidMac(t))
      case Some(v) => Ok(Some(v))
  }

  /** `MAC.process_result_value`: None is passed through; every loaded value is in the unix dialect. */
  function Load(stored: Option<U48>): (r: Option<Eui>)
    ensures stored.None? <==> r.None?
    ensures r.Some? ==> r.value.dialect == MacUnix && r.value.value == stored.value
  {
    match stored
    case None => None
    case Some(v) => Some(Eui(v, MacUnix))
  }

  /**
   * Loading what was bound keeps the 48-bit value and normalises the dialect
   * to unix; an `EUI` already in the unix dialect comes back unchanged.
   */
  lemma RoundTrip(e: Eui, parse: string -> Option<U48>)
    ensures Bind(Some(EuiValue(e)), parse).Ok?
    ensures Load(Bind(Some(EuiValue(e)), parse).value) == Some(Eui(e.value, MacUnix))
    ensures e.dialect == MacUnix ==> Load(Bind(Some(EuiValue(e)), parse).value) == Some(e)
  {
  }

  /** Binding a loaded value writes the same column value back. */
  lemma StoredIsFixedPoint(stored: Option<U48>, parse: string -> Option<U48>)
    ensures stored.Some? ==> Bind(Some(EuiValue(Load(stored).value)), parse) == Ok(stored)
    ensures stored.None? ==> Load(stored).None? && Bind(None, parse) == Ok(stored)
  {
  }
}
