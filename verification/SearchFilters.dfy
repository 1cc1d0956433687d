/** The filter panel under the search bar: four drop-downs (type, year,
    genre, country of origin) over fixed option lists, an apply button that
    reports the selection and a reset button that clears it. */
module SearchFilters {
  import opened Basics

  /** The year options, newest first: `2025 - i` for `i` below
      `2026 - 1950`. */
  function Years(): (ys: seq<int>)
    ensures |ys| == 2026 - 1950
    ensures forall i :: 0 <= i < |ys| ==> ys[i] == 2025 - i
  {
    seq(2026 - 1950, i => 2025 - i)
  }

  /** Seventy-six years, from 2025 down to 1950 one by one, each offered
      once. */
  lemma YearsSpan()
    ensures |Years()| == 76 && Years()[0] == 2025 && Years()[75] == 1950
    ensures forall i :: 0 < i < |Years()| ==> Years()[i] == Years()[i - 1] - 1
    ensures forall y :: y in Years() <==> 1950 <= y <= 2025
  {
    forall y | 1950 <= y <= 2025 ensures y in Years() {
      assert Years()[2025 - y] == y;
    }
  }

  /** A genre of the metadata provider, by numeric id. */
  datatype Genre = Genre(id: nat, name: string)

  const Genres: seq<Genre> := [
    Genre(28, "Action"),
    Genre(35, "Comédie"),
    Genre(18, "Drame"),
    Genre(27, "Horreur"),
    Genre(10749, "Romance"),
    Genre(16, "Animation"),
    Genre(12, "Aventure"),
    Genre(80, "Crime"),
    Genre(99, "Documentaire"),
    Genre(878, "Science-Fiction")
  ]

  /** A country of origin, by ISO 3166 code. */
  datatype Country = Country(code: string, name: string)

  const Countries: seq<Country> := [
    Country("FR", "France"),
    Country("US", "États-Unis"),
    Country("GB", "Royaume-Uni"),
    Country("JP", "Japon"),
    Country("KR", "Corée du Sud"),
    Country("IT", "Italie"),
    Country("DE", "Allemagne"),
    Country("ES", "Espagne"),
    Country("IN", "Inde"),
    Country("CA", "Canada")
  ]

  /** No two genres share an id and no two countries share a code, so an
      option value names one entry. */
  lemma TablesAreKeyed()
    ensures forall i, j :: 0 <= i < j < |Genres| ==> Genres[i].id != Genres[j].id
    ensures forall i, j :: 0 <= i < j < |Countries| ==> Countries[i].code != Countries[j].code
  {
  }

  /** Every genre of the table has a name to show. */
  lemma GenreNamesAreSet()
    ensures forall i :: 0 <= i < |Genres| ==> Genres[i].name != ""
  {
  }

  /** The four selections; the empty string is "any". */
  datatype Filters = Filters(kind: string, year: string, genre: string, country: string)

  const NoFilters := Filters("", "", "", "")

  /** The panel's state: the selections, initially all empty. */
  datatype Panel = Panel(selected: Filters)

  const InitialPanel := Panel(NoFilters)

  /** The change handlers: each stores the chosen option value in its own
      selection and leaves the other three alone. */
  function ChangeType(p: Panel, value: string): (r: Panel)
    ensures r.selected.kind == value
    ensures && r.selected.year == p.selected.year
            && r.selected.genre == p.selected.genre
            && r.selected.country == p.selected.country
  {
    Panel(p.selected.(kind := value))
  }

  function ChangeYear(p: Panel, value: string): (r: Panel)
    ensures r.selected.year == value
    ensures && r.selected.kind == p.selected.kind
            && r.selected.genre == p.selected.genre
            && r.selected.country == p.selected.country
  {
    Panel(p.selected.(year := value))
  }

  function ChangeGenre(p: Panel, value: string): (r: Panel)
    ensures r.selected.genre == value
    ensures && r.selected.kind == p.selected.kind
            && r.selected.year == p.selected.year
            && r.selected.country == p.selected.country
  {
    Panel(p.selected.(genre := value))
  }

  function ChangeCountry(p: Panel, value: string): (r: Panel)
    ensures r.selected.country == value
    ensures && r.selected.kind == p.selected.kind
            && r.selected.year == p.selected.year
            && r.selected.genre == p.selected.genre
  {
    Panel(p.selected.(country := value))
  }

  /** Each handler changes only its own selection: a change of one field
      commutes with a change of any other. */
  lemma HandlersAreIndependent(p: Panel, t: string, y: string, g: string, c: string)
    ensures ChangeYear(ChangeType(p, t), y) == ChangeType(ChangeYear(p, y), t)
    ensures ChangeGenre(ChangeCountry(p, c), g) == ChangeCountry(ChangeGenre(p, g), c)
    ensures ChangeCountry(ChangeGenre(ChangeYear(ChangeType(p, t), y), g), c).selected == Filters(t, y, g, c)
  {
  }

  /** "Rechercher": the selections, reported to the listener if there is
      one (`onChange && onChange(...)`). */
  function Apply(p: Panel, listening: bool): (report: Option<Filters>)
    ensures report.Some? <==> listening
    ensures report.Some? ==> report.value == p.selected
  {
    if listening then Some(p.selected) else None
  }

  /** "Réinitialiser": every selection back to "any", and the all-empty
      selection reported. */
  function Reset(p: Panel, listening: bool): (r: (Panel, Option<Filters>))
    ensures r.0 == InitialPanel
    ensures r.1.Some? <==> listening
    ensures r.1.Some? ==> r.1.value == NoFilters
  {
    (InitialPanel, if listening then Some(NoFilters) else None)
  }

  /** Applying right after a reset reports what the reset reported. */
  lemma ApplyAfterReset(p: Panel, listening: bool)
    ensures Apply(Reset(p, listening).0, listening) == Reset(p, listening).1
  {
  }

  /** What the panel renders: its selections, or nothing when hidden. */
  function Render(p: Panel, visible: bool): (shown: Option<Filters>)
    ensures shown.None? <==> !visible
    ensures shown.Some? ==> shown.value == p.selected
  {
    if !visible then None else Some(p.selected)
  }
}
