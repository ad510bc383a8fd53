/**
 * The JSON-LD block `injectProjectSchemas` appends to the document head: an
 * ItemList with one CreativeWork per project. The document is modelled as a
 * JSON value (objects keep their keys in insertion order, as
 * `JSON.stringify` prints them); the serialisation to text is not modelled.
 */
module Schema {
  import opened Common
  import opened Projects

  datatype Json =
    | JString(str: string)
    | JArray(elems: seq<Json>)
    | JObject(fields: seq<(string, Json)>)

  const SchemaContext: string := "https://schema.org"
  /** Every item carries the same page address. */
  const ProjectsUrl: string := "https://your-domain.com/#projects"

  /** The item for one project. */
  function CreativeWork(p: Project): Json {
    JObject([
      ("@type", JString("CreativeWork")),
      ("name", JString(p.title)),
      ("description", JString(p.desc)),
      ("datePublished", JString(p.period)),
      ("url", JString(ProjectsUrl)),
      ("image", JString(p.cover))])
  }

  /** The items, one per project, in project order. */
  function CreativeWorks(ps: seq<Project>): (r: seq<Json>)
    ensures |r| == |ps|
  {
    if ps == [] then [] else [CreativeWork(ps[0])] + CreativeWorks(ps[1..])
  }

  /** The whole schema object. */
  function ItemList(ps: seq<Project>): Json {
    JObject([
      ("@context", JString(SchemaContext)),
      ("@type", JString("ItemList")),
      ("itemListElement", JArray(CreativeWorks(ps)))])
  }

  // ----- reading the schema back -----

  /** What a CreativeWork item says about its project. */
  datatype Summary = Summary(name: string, description: string, datePublished: string, image: string)

  function SummaryOf(p: Project): Summary {
    Summary(p.title, p.desc, p.period, p.cover)
  }

  /** The value of the first field named `key`. */
  function Lookup(fields: seq<(string, Json)>, key: string): (r: Option<Json>)
    ensures r.Some? ==> exists i :: 0 <= i < |fields| && fields[i] == (key, r.value)
  {
    if fields == [] then None
    else if fields[0].0 == key then Some(fields[0].1)
    else Lookup(fields[1..], key)
  }

  /** A string field, or nothing if it is missing or not a string. */
  function StringField(j: Json, key: string): Option<string> {
    if !j.JObject? then None
    else match Lookup(j.fields, key)
      case Some(JString(s)) => Some(s)
      case _ => None
  }

  /** Reads one item; fails unless it is a CreativeWork with all four fields. */
  function ReadWork(j: Json): Option<Summary> {
    match (StringField(j, "@type"), StringField(j, "name"), StringField(j, "description"),
           StringField(j, "datePublished"), StringField(j, "image"))
    case (Some(t), Some(n), Some(d), Some(dp), Some(im)) =>
      if t == "CreativeWork" then Some(Summary(n, d, dp, im)) else None
    case _ => None
  }

  function ReadWorks(items: seq<Json>): (r: Option<seq<Summary>>)
    ensures r.Some? ==> |r.value| == |items|
  {
    if items == [] then Some([])
    else match (ReadWork(items[0]), ReadWorks(items[1..]))
      case (Some(w), Some(ws)) => Some([w] + ws)
      case _ => None
  }

  /** Reads a whole schema; fails unless it is a schema.org ItemList. */
  function ReadItemList(j: Json): Option<seq<Summary>> {
    if StringField(j, "@context") != Some(SchemaContext)
      || StringField(j, "@type") != Some("ItemList") then None
    else match (if j.JObject? then Lookup(j.fields, "itemListElement") else None)
      case Some(JArray(items)) => ReadWorks(items)
      case _ => None
  }

  /** What the item list should say: one summary per project, in order. */
  function Summaries(ps: seq<Project>): (r: seq<Summary>)
    ensures |r| == |ps|
  {
    if ps == [] then [] else [SummaryOf(ps[0])] + Summaries(ps[1..])
  }

  /** Lookup finds the first field with the key. */
  lemma {:induction false} LookupFirst(fields: seq<(string, Json)>, i: nat, key: string)
    requires i < |fields| && fields[i].0 == key
    requires forall j :: 0 <= j < i ==> fields[j].0 != key
    ensures Lookup(fields, key) == Some(fields[i].1)
  {
    if i > 0 {
      LookupFirst(fields[1..], i - 1, key);
    }
  }

  /** A string field found at position `i`, with no earlier field of the
      same name, is what `StringField` reads. */
  lemma StringFieldAt(fields: seq<(string, Json)>, i: nat, key: string, s: string)
    requires i < |fields| && fields[i] == (key, JString(s))
    requires forall j :: 0 <= j < i ==> fields[j].0 != key
    ensures StringField(JObject(fields), key) == Some(s)
  {
    LookupFirst(fields, i, key);
  }

  /** The four fields read back from an item, and its type. */
  lemma CreativeWorkFields(p: Project)
    ensures StringField(CreativeWork(p), "@type") == Some("CreativeWork")
    ensures StringField(CreativeWork(p), "name") == Some(p.title)
    ensures StringField(CreativeWork(p), "description") == Some(p.desc)
    ensures StringField(CreativeWork(p), "datePublished") == Some(p.period)
    ensures StringField(CreativeWork(p), "image") == Some(p.cover)
  {
    var fs := CreativeWork(p).fields;
    StringFieldAt(fs, 0, "@type", "CreativeWork");
    StringFieldAt(fs, 1, "name", p.title);
    StringFieldAt(fs, 2, "description", p.desc);
    StringFieldAt(fs, 3, "datePublished", p.period);
    StringFieldAt(fs, 5, "image", p.cover);
  }

  /** Reading back one item gives the project's title, description, period
      and cover. */
  lemma ReadCreativeWork(p: Project)
    ensures ReadWork(CreativeWork(p)) == Some(SummaryOf(p))
  {
    CreativeWorkFields(p);
  }

  /** Reading back the items gives one summary per project, in order. */
  lemma {:induction false} WorksRoundTrip(ps: seq<Project>)
    ensures ReadWorks(CreativeWorks(ps)) == Some(Summaries(ps))
  {
    if ps != [] {
      ReadCreativeWork(ps[0]);
      WorksRoundTrip(ps[1..]);
      assert CreativeWorks(ps)[1..] == CreativeWorks(ps[1..]);
    }
  }

  /** The item list describes every project, in project order, with name,
      description, datePublished and image taken from title, desc, period
      and cover. */
  lemma ItemListRoundTrip(ps: seq<Project>)
    ensures ReadItemList(ItemList(ps)) == Some(Summaries(ps))
  {
    var fs := ItemList(ps).fields;
    assert "@type" != "@context";
    assert "itemListElement" != "@context" && "itemListElement" != "@type";
    LookupFirst(fs, 0, "@context");
    LookupFirst(fs, 1, "@type");
    LookupFirst(fs, 2, "itemListElement");
    WorksRoundTrip(ps);
  }
}
