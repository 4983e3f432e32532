/**
  The parsed annotation document (COCO style) that the resizer reads and
  writes. Only the fields the resizer touches are typed; everything else is an
  opaque JSON value carried through.

  The split into typed fields and `others`/`rest` is faithful only for
  documents that are `WellFormed`: no geometry key hides in `others` and no
  top-level key the resizer reads hides in `rest`. Documents are assumed to be
  well formed; the types alone do not rule such duplicates out.
 */
module Document {

  /** A JSON number: Python's `json` keeps integers and floats apart. */
  datatype Number = Int(i: int) | Float(f: real)
  {
    function Real(): real {
      match this
      case Int(i) => i as real
      case Float(f) => f
    }
  }

  /** Any JSON value, for passthrough fields. */
  datatype Value =
    | Null
    | Bool(b: bool)
    | Num(n: Number)
    | Str(s: string)
    | Arr(items: seq<Value>)
    | Obj(fields: map<string, Value>)

  /** An image record is an untyped JSON object (id, file_name, width,
      height, ...); the resizer only overwrites `width` and `height`. */
  type Image = map<string, Value>

  /** An annotation record: the three geometry fields the resizer replaces and
      every other key (id, image_id, category_id, iscrowd, ...) in `others`. */
  datatype Annotation = Annotation(
    bbox: seq<real>,
    segmentation: seq<seq<real>>,
    area: Number,
    others: map<string, Value>)

  /** A whole document: the five top-level keys the resizer reads, and any
      further top-level keys in `rest`. */
  datatype Doc = Doc(
    images: seq<Image>,
    categories: Value,
    annotations: seq<Annotation>,
    info: Value,
    metainfo: Value,
    rest: map<string, Value>)

  /** The keys of an annotation record that have typed fields. */
  const GeometryKeys: set<string> := {"bbox", "segmentation", "area"}

  /** The top-level keys of a document that have typed fields. */
  const TopLevelKeys: set<string> := {"images", "categories", "annotations", "info", "metainfo"}

  /** The keys in `others` are the annotation's remaining keys only. */
  ghost predicate WellFormedAnnotation(a: Annotation) {
    a.others.Keys !! GeometryKeys
  }

  /** Every key of the JSON object is held in exactly one place. */
  ghost predicate WellFormed(doc: Doc) {
    && doc.rest.Keys !! TopLevelKeys
    && forall j :: 0 <= j < |doc.annotations| ==> WellFormedAnnotation(doc.annotations[j])
  }
}
