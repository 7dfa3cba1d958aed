/** One accident record of the loaded table, with the columns the dashboard
    reads. Parsing is not modelled: every cell that pandas may coerce to
    NaN/NaT is an `Option`, already parsed. */
module Records {
  import opened Wrappers

  /** An hour of the day, as `.dt.hour` yields it. */
  type Hour = h: int | 0 <= h < 24

  datatype Record = Record(
    ano: Option<int>,                  // year of `data_inversa`; None when the date did not parse
    diaSemana: Option<string>,         // `dia_semana`, as written in the file
    hora: Option<Hour>,                // hour of `horario` read as HH:MM:SS; None when it did not parse
    uf: Option<string>,                // state code
    municipio: Option<string>,
    br: Option<int>,                   // federal highway number
    latitude: Option<real>,            // after `to_numeric(errors='coerce')`
    longitude: Option<real>,
    tipoAcidente: Option<string>,
    causaPrincipal: Option<string>,
    faseDia: Option<string>,           // phase of the day (dawn, day, dusk, night)
    tipoVeiculo: Option<string>,
    idade: Option<int>,                // victim's age
    anoFabricacaoVeiculo: Option<int>  // vehicle's year of manufacture
  )

  /** A table of records: the loaded base table or a filtered view of it. */
  type View = seq<Record>

  /** One column of a view, row by row. */
  function Column<T>(v: View, f: Record -> T): (c: seq<T>)
    ensures |c| == |v|
    ensures forall i :: 0 <= i < |v| ==> c[i] == f(v[i])
  {
    seq(|v|, i requires 0 <= i < |v| => f(v[i]))
  }

  function DiaSemanaOf(r: Record): Option<string> { r.diaSemana }
  function HoraOf(r: Record): Option<Hour> { r.hora }
  function UfOf(r: Record): Option<string> { r.uf }
  function MunicipioOf(r: Record): Option<string> { r.municipio }
  function BrOf(r: Record): Option<int> { r.br }
  function TipoAcidenteOf(r: Record): Option<string> { r.tipoAcidente }
  function CausaPrincipalOf(r: Record): Option<string> { r.causaPrincipal }
  function TipoVeiculoOf(r: Record): Option<string> { r.tipoVeiculo }
  function IdadeOf(r: Record): Option<int> { r.idade }
}
