/** The results page (frontend/src/app/pages/resultados/resultados.component.ts): the
    signals it shows and the bar chart it feeds from `GET /api/v1/areas/conteo`. */
module Resultados {
  import opened Model

  const EstadisticasNoCargadas := "No se pudieron cargar las estadísticas. Verifica que el backend esté ejecutándose."

  /** `areas.map(a => a.nombre)`: one label per row, in row order. */
  function Labels(areas: seq<AreaConConteo>): (r: seq<string>)
    ensures |r| == |areas|
    ensures forall i :: 0 <= i < |areas| ==> r[i] == areas[i].nombre
  {
    if areas == [] then [] else [areas[0].nombre] + Labels(areas[1..])
  }

  /** `areas.map(a => a.personas)`: one bar height per row, in row order. */
  function Counts(areas: seq<AreaConConteo>): (r: seq<nat>)
    ensures |r| == |areas|
    ensures forall i :: 0 <= i < |areas| ==> r[i] == areas[i].personas
  {
    if areas == [] then [] else [areas[0].personas] + Counts(areas[1..])
  }

  /** The page's signals and the chart's `labels` and `datasets[0].data`. */
  class ResultadosComponent {
    var areasConteo: seq<AreaConConteo>
    var loading: bool
    var errorMessage: string
    var totalPersonas: nat
    var chartLabels: seq<string>
    var chartData: seq<nat>

    /** The initial signal values: the page starts out loading. */
    constructor()
      ensures areasConteo == [] && loading && errorMessage == "" && totalPersonas == 0
      ensures chartLabels == [] && chartData == []
    {
      areasConteo, loading, errorMessage, totalPersonas := [], true, "", 0;
      chartLabels, chartData := [], [];
    }

    /** `loadAreasConteo` up to the request: the page shows it is loading. */
    method LoadAreasConteo()
      modifies this
      ensures loading
      ensures areasConteo == old(areasConteo) && errorMessage == old(errorMessage)
      ensures totalPersonas == old(totalPersonas)
      ensures chartLabels == old(chartLabels) && chartData == old(chartData)
    {
      loading := true;
    }

    /** The success callback: the rows are kept, the total is their sum of `personas`, the
        chart gets one label and one bar per row, and loading stops. The error message is
        left as it was. */
    method OnConteoLoaded(areas: seq<AreaConConteo>)
      modifies this
      ensures areasConteo == areas && !loading && errorMessage == old(errorMessage)
      ensures totalPersonas == SumPersonas(areas)
      ensures chartLabels == Labels(areas) && chartData == Counts(areas)
    {
      areasConteo := areas;
      totalPersonas := SumPersonas(areas);
      chartLabels := Labels(areas);
      chartData := Counts(areas);
      loading := false;
    }

    /** The error callback: the page shows the statistics error and stops loading; the
        rows, the total and the chart keep their last values. */
    method OnConteoError()
      modifies this
      ensures errorMessage == EstadisticasNoCargadas && !loading
      ensures areasConteo == old(areasConteo) && totalPersonas == old(totalPersonas)
      ensures chartLabels == old(chartLabels) && chartData == old(chartData)
    {
      errorMessage := EstadisticasNoCargadas;
      loading := false;
    }

    /** `recargarDatos`: the error is cleared and the rows are requested again. */
    method RecargarDatos()
      modifies this
      ensures errorMessage == "" && loading
      ensures areasConteo == old(areasConteo) && totalPersonas == old(totalPersonas)
      ensures chartLabels == old(chartLabels) && chartData == old(chartData)
    {
      errorMessage := "";
      LoadAreasConteo();
    }
  }
}
