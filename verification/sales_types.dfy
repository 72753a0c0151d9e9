/**
  The record types of the dashboard: the closed set of sale sources, the sale
  record, and the two lookup tables keyed by source.
 */
module SalesTypes {
  import opened Options
  import opened Calendar

  /** `SaleSource`: a union of exactly six string tags. */
  datatype SaleSource = InfoProduto | Curso | Mentoria | Ebook | Consultoria | Outro

  /** The string each source is written as. */
  function Tag(s: SaleSource): string {
    match s
    case InfoProduto => "info-produto"
    case Curso => "curso"
    case Mentoria => "mentoria"
    case Ebook => "ebook"
    case Consultoria => "consultoria"
    case Outro => "outro"
  }

  /** Whether a string is one of the six tags, and which. */
  function SourceOfTag(t: string): (r: Option<SaleSource>)
    ensures r.Some? ==> Tag(r.value) == t
  {
    if t == "info-produto" then Some(InfoProduto)
    else if t == "curso" then Some(Curso)
    else if t == "mentoria" then Some(Mentoria)
    else if t == "ebook" then Some(Ebook)
    else if t == "consultoria" then Some(Consultoria)
    else if t == "outro" then Some(Outro)
    else None
  }

  /** Every source's tag is recognised as that source, so tags never collide. */
  lemma TagRoundTrip(s: SaleSource)
    ensures SourceOfTag(Tag(s)) == Some(s)
  {
  }

  /** A string names a source exactly when it is one of the six tags. */
  lemma SourceTagsAreExactlySix(t: string)
    ensures SourceOfTag(t).Some? <==> t in {"info-produto", "curso", "mentoria", "ebook", "consultoria", "outro"}
  {
  }

  /** The sources in the order the lookup tables list them. */
  const AllSources: seq<SaleSource> := [InfoProduto, Curso, Mentoria, Ebook, Consultoria, Outro]

  lemma AllSourcesEnumerates(s: SaleSource)
    ensures s in AllSources
    ensures |AllSources| == 6
    ensures forall i, j :: 0 <= i < j < |AllSources| ==> AllSources[i] != AllSources[j]
  {
  }

  /**
    `Sale`: only the description is optional. `date` is the calendar day the sale
    happened; `createdAt` is the insertion timestamp, an opaque string here.
   */
  datatype Sale = Sale(
    id: string,
    value: real,
    source: SaleSource,
    description: Option<string>,
    date: CalendarDate,
    createdAt: string)

  /** `sourceLabels`. */
  const SourceLabels: map<SaleSource, string> := map[
    InfoProduto := "Info-Produto",
    Curso := "Curso",
    Mentoria := "Mentoria",
    Ebook := "E-book",
    Consultoria := "Consultoria",
    Outro := "Outro"]

  /** `sourceColors`. */
  const SourceColors: map<SaleSource, string> := map[
    InfoProduto := "bg-emerald-500",
    Curso := "bg-blue-500",
    Mentoria := "bg-purple-500",
    Ebook := "bg-amber-500",
    Consultoria := "bg-rose-500",
    Outro := "bg-slate-500"]

  /** Both tables have an entry for every source and for nothing else. */
  lemma TablesAreTotal()
    ensures forall s: SaleSource :: s in SourceLabels && s in SourceColors
    ensures SourceLabels.Keys == SourceColors.Keys == set s | s in AllSources
  {
    forall s: SaleSource
      ensures s in SourceLabels && s in SourceColors
    {
      AllSourcesEnumerates(s);
    }
  }

  /** No two sources share a label, so a label identifies its source. */
  lemma LabelsAreDistinct(a: SaleSource, b: SaleSource)
    ensures SourceLabels[a] == SourceLabels[b] ==> a == b
  {
    TablesAreTotal();
  }

  /**
    The select options built from `Object.entries(sourceLabels)`: six
    (key, label) pairs, each key once and in the order the table declares it,
    each shown with its own label.
   */
  function SelectOptions(): (options: seq<(SaleSource, string)>)
    ensures |options| == 6
    ensures forall i :: 0 <= i < |options| ==> options[i].0 in SourceLabels && options[i].1 == SourceLabels[options[i].0]
    ensures forall i, j :: 0 <= i < j < |options| ==> options[i].0 != options[j].0
    ensures forall s :: IndexOf(s) < |options| && options[IndexOf(s)].0 == s
  {
    TablesAreTotal();
    seq(|AllSources|, i requires 0 <= i < |AllSources| => (AllSources[i], SourceLabels[AllSources[i]]))
  }

  /** Every source is offered, and no two options show the same label. */
  lemma SelectOptionsAreUnambiguous()
    ensures forall s: SaleSource :: s in SourceLabels && (s, SourceLabels[s]) in SelectOptions()
    ensures forall i, j :: 0 <= i < j < |SelectOptions()| ==> SelectOptions()[i].1 != SelectOptions()[j].1
  {
    TablesAreTotal();
    var options := SelectOptions();
    forall s: SaleSource
      ensures s in SourceLabels && (s, SourceLabels[s]) in options
    {
      assert options[IndexOf(s)] == (s, SourceLabels[s]);
    }
    forall i, j | 0 <= i < j < |options|
      ensures options[i].1 != options[j].1
    {
      AllSourcesEnumerates(options[i].0);
      LabelsAreDistinct(options[i].0, options[j].0);
    }
  }

  /** The position of a source in the table order. */
  function IndexOf(s: SaleSource): (i: nat)
    ensures i < |AllSources| && AllSources[i] == s
  {
    match s
    case InfoProduto => 0
    case Curso => 1
    case Mentoria => 2
    case Ebook => 3
    case Consultoria => 4
    case Outro => 5
  }
}
