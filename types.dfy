/** The plain data of the catalog header: languages, object categories, the
    database description and the two record structures, with the byte
    capacities of their character arrays. */
module SkyTypes {
  import opened Common

  /** SkyTranslate: the language of constellation names. */
  datatype SkyTranslate = English | Latin | French

  /** DatabaseObjectType; SkyObjectNone is the "no list open" marker. */
  datatype DatabaseObjectType = SkyObjectNone | Star | Messier | NGC | IC

  /** SkyDbDescrStruct: one record count per category, -1 when unknown. */
  datatype SkyDbDescr = SkyDbDescr(starCount: int, messierCount: int, ngcCount: int, icCount: int)

  /** A float field of a record. The engine converts text with atof, which
      is not modelled: a field keeps the text it was converted from. Zero is
      the value a cleared record holds, NotApplicable the NaN written into
      the star-only fields of other categories. */
  datatype FloatValue = Zero | FromText(text: string) | NotApplicable

  /** SkyObjectStruct. dRa, dDec and parallax are meaningful for stars only. */
  datatype SkyObject = SkyObject(
    index: int,
    designation: string,
    name: string,
    constAbrv: string,
    ra: FloatValue,
    dec: FloatValue,
    magnitude: FloatValue,
    dRa: FloatValue,
    dDec: FloatValue,
    parallax: FloatValue)

  /** SkyConstStruct. */
  datatype SkyConst = SkyConst(abrv: string, fullName: string)

  // Sizes of the character arrays that receive text, terminating NUL included.
  const DesignationSize: nat := 32
  const NameSize: nat := 32
  const ConstAbrvSize: nat := 5
  const AbrvSize: nat := 5
  const FullNameSize: nat := 32
  /** tmpString, the buffer numeric fields are read into before conversion. */
  const NumberSize: nat := 12
  /** The buffer a count file's first line is read into. */
  const CountSize: nat := 6

  /** A record cleared with memset: every number 0, every string empty. */
  function EmptyObject(): (o: SkyObject)
    ensures o.index == 0 && o.designation == o.name == o.constAbrv == []
    ensures o.ra == o.dec == o.magnitude == o.dRa == o.dDec == o.parallax == Zero
  {
    SkyObject(0, [], [], [], Zero, Zero, Zero, Zero, Zero, Zero)
  }

  function EmptyConst(): (c: SkyConst)
    ensures c.abrv == c.fullName == []
  {
    SkyConst([], [])
  }

  /** The directory segment of a category; SkyObjectNone selects none, so
      the path is built without that segment. */
  function TypeDirectory(t: DatabaseObjectType): (dir: Option<string>)
    ensures dir.None? <==> t == SkyObjectNone
    ensures dir.Some? ==> 2 <= |dir.value| <= 7 && '/' !in dir.value
  {
    match t
    case SkyObjectNone => None
    case Star => Some("star")
    case Messier => Some("messier")
    case NGC => Some("ngc")
    case IC => Some("ic")
  }

  /** Distinct categories live in distinct directories. */
  lemma TypeDirectoriesDistinct(t1: DatabaseObjectType, t2: DatabaseObjectType)
    requires t1 != t2
    ensures TypeDirectory(t1) != TypeDirectory(t2)
  {
  }

  /** The translation file of a language; English is the default branch. */
  function TranslationFile(lang: SkyTranslate): (f: string)
    ensures |f| == 7 && f[3..] == ".tsl" && '/' !in f
    ensures lang == Latin <==> f == "lat.tsl"
    ensures lang == French <==> f == "fra.tsl"
    ensures lang == English <==> f == "eng.tsl"
  {
    match lang
    case Latin => "lat.tsl"
    case French => "fra.tsl"
    case _ => "eng.tsl"
  }
}
