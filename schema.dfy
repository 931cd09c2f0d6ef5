/** The record layout and the category enumeration: `Models.DataColumns` and `Models.CodesCategory`
    in twse_codes/codes.py, and the identical `Models.CodesData` in codes.py. */
module Schema {
  import opened Outcomes

  /** One field of a record, in declaration order. */
  datatype Column =
    | Symbol | Name | Category | IsinCode | DateOfListing | MarketType | Industry | CfiCode | Notes

  /** The members of the enumeration in declaration order, which is the order of every frame's columns. */
  const Columns: seq<Column> :=
    [Symbol, Name, Category, IsinCode, DateOfListing, MarketType, Industry, CfiCode, Notes]

  /** The short key, the first element of a member's value tuple (`short_name`). */
  function ShortName(c: Column): string {
    match c
    case Symbol => "sc"
    case Name => "cn"
    case Category => "ca"
    case IsinCode => "ic"
    case DateOfListing => "dl"
    case MarketType => "ma"
    case Industry => "si"
    case CfiCode => "cc"
    case Notes => "no"
  }

  /** The display label, the second element of a member's value tuple. */
  function LongName(c: Column): string {
    match c
    case Symbol => "代號"
    case Name => "名稱"
    case Category => "類別"
    case IsinCode => "國際證券辨識號碼(ISIN Code)"
    case DateOfListing => "上市日"
    case MarketType => "市場別"
    case Industry => "產業別"
    case CfiCode => "CFICode"
    case Notes => "備註"
  }

  /** Where a column sits in a record. */
  function Position(c: Column): (i: nat)
    ensures i < |Columns| && Columns[i] == c
    ensures forall j :: 0 <= j < |Columns| && Columns[j] == c ==> j == i
  {
    match c
    case Symbol => 0
    case Name => 1
    case Category => 2
    case IsinCode => 3
    case DateOfListing => 4
    case MarketType => 5
    case Industry => 6
    case CfiCode => 7
    case Notes => 8
  }

  /** `get_columns_short`: the nine short keys, one per column in declaration order, no two alike. */
  function ColumnsShort(): (keys: seq<string>)
    ensures |keys| == |Columns| == 9
    ensures forall i :: 0 <= i < |keys| ==> keys[i] == ShortName(Columns[i])
    ensures forall i, j :: 0 <= i < j < |keys| ==> keys[i] != keys[j]
  {
    seq(|Columns|, i requires 0 <= i < |Columns| => ShortName(Columns[i]))
  }

  /** `get_columns_long`: the display labels, parallel to `ColumnsShort`, no two alike. */
  function ColumnsLong(): (labels: seq<string>)
    ensures |labels| == |ColumnsShort()|
    ensures forall i :: 0 <= i < |labels| ==> labels[i] == LongName(Columns[i]) && ColumnsShort()[i] == ShortName(Columns[i])
    ensures forall i, j :: 0 <= i < j < |labels| ==> labels[i] != labels[j]
  {
    seq(|Columns|, i requires 0 <= i < |Columns| => LongName(Columns[i]))
  }

  /** The listing categories, `Models.CodesCategory`. */
  datatype CodesCategory =
    | Stock | Warrant | SpecialStock | InnovationBoard | Etf | Etn | Tdr
    | AssetBasedSecurities | Reit | OtcWarrant | Index

  /** The member's Python name, which `get` accepts as its argument. */
  function MemberName(c: CodesCategory): string {
    match c
    case Stock => "STOCK"
    case Warrant => "WARRANT"
    case SpecialStock => "SPECIAL_STOCK"
    case InnovationBoard => "INNOVATION_BOARD"
    case Etf => "ETF"
    case Etn => "ETN"
    case Tdr => "TDR"
    case AssetBasedSecurities => "ASSET_BASED_SECURITIES"
    case Reit => "REIT"
    case OtcWarrant => "OTC_WARRANT"
    case Index => "INDEX"
  }

  /** The member's value: the section header text on the exchange's page, stored in the `ca` column. */
  function Label(c: CodesCategory): string {
    match c
    case Stock => "股票"
    case Warrant => "上市認購(售)權證"
    case SpecialStock => "特別股"
    case InnovationBoard => "創新板"
    case Etf => "ETF"
    case Etn => "ETN"
    case Tdr => "臺灣存託憑證(TDR)"
    case AssetBasedSecurities => "受益證券-資產基礎證券"
    case Reit => "受益證券-不動產投資信託"
    case OtcWarrant => "上櫃認購(售)權證"
    case Index => "指數"
  }

  /** Distinct members have distinct labels, so filtering on the label selects exactly one member. */
  lemma LabelsDistinct(c: CodesCategory, d: CodesCategory)
    requires c != d
    ensures Label(c) != Label(d)
  {
  }

  /** Python's `str.lower()` restricted to ASCII letters, which is all the member names contain. */
  function LowerChar(ch: char): (r: char)
    ensures 'A' <= ch <= 'Z' ==> r as int == ch as int + 32
    ensures !('A' <= ch <= 'Z') ==> r == ch
  {
    if 'A' <= ch <= 'Z' then (ch as int + 32) as char else ch
  }

  /** `str.lower()` on ASCII text, character by character. */
  function Lower(s: string): (r: string)
    ensures |r| == |s|
    ensures forall i :: 0 <= i < |r| ==> r[i] == LowerChar(s[i])
  {
    seq(|s|, i requires 0 <= i < |s| => LowerChar(s[i]))
  }

  /** `lower_name`: the member name in lower case. */
  function LowerName(c: CodesCategory): (r: string)
    ensures |r| == |MemberName(c)|
    ensures forall i :: 0 <= i < |r| ==> r[i] == LowerChar(MemberName(c)[i])
    ensures forall i :: 0 <= i < |r| ==> !('A' <= r[i] <= 'Z')
  {
    Lower(MemberName(c))
  }

  /** Member names are written in upper-case ASCII letters and underscores only. */
  predicate IsUpperIdentifier(s: string) {
    forall i :: 0 <= i < |s| ==> s[i] == '_' || 'A' <= s[i] <= 'Z'
  }

  lemma MemberNameIsUpper(c: CodesCategory)
    ensures IsUpperIdentifier(MemberName(c))
  {
    match c
    case SpecialStock => TwoWordNameIsUpper(c);
    case InnovationBoard => TwoWordNameIsUpper(c);
    case OtcWarrant => TwoWordNameIsUpper(c);
    case AssetBasedSecurities => ThreeWordNameIsUpper();
    case _ => SimpleNameIsUpper(c);
  }

  /** The names that are one word. */
  lemma SimpleNameIsUpper(c: CodesCategory)
    requires c in {Stock, Warrant, Etf, Etn, Tdr, Reit, Index}
    ensures IsUpperIdentifier(MemberName(c))
  {
    match c
    case Stock =>
    case Warrant =>
    case Etf =>
    case Etn =>
    case Tdr =>
    case Reit =>
    case Index =>
  }

  /** The names of two words joined by an underscore. */
  lemma TwoWordNameIsUpper(c: CodesCategory)
    requires c in {SpecialStock, InnovationBoard, OtcWarrant}
    ensures IsUpperIdentifier(MemberName(c))
  {
    match c
    case SpecialStock =>
    case InnovationBoard =>
    case OtcWarrant =>
  }

  /** The one name of three words. */
  lemma ThreeWordNameIsUpper()
    ensures IsUpperIdentifier(MemberName(AssetBasedSecurities))
  {
  }

  /** Lower-casing loses nothing on upper-case identifiers. */
  lemma LowerInjective(m: string, n: string)
    requires IsUpperIdentifier(m) && IsUpperIdentifier(n)
    requires Lower(m) == Lower(n)
    ensures m == n
  {
    assert |m| == |n|;
    forall i | 0 <= i < |m| ensures m[i] == n[i] {
      assert LowerChar(m[i]) == Lower(m)[i] == Lower(n)[i] == LowerChar(n[i]);
    }
  }

  /** Looking a member up by its own name finds that member. */
  lemma CategoryNamedRoundTrip(c: CodesCategory)
    ensures CategoryNamed(MemberName(c)) == Some(c)
  {
    match c
    case Stock =>
    case Warrant =>
    case SpecialStock =>
    case InnovationBoard =>
    case Etf =>
    case Etn =>
    case Tdr =>
    case AssetBasedSecurities =>
    case Reit =>
    case OtcWarrant =>
    case Index =>
  }

  /** Distinct members have distinct names. */
  lemma MemberNamesDistinct(c: CodesCategory, d: CodesCategory)
    requires c != d
    ensures MemberName(c) != MemberName(d)
  {
    CategoryNamedRoundTrip(c);
    CategoryNamedRoundTrip(d);
  }

  /** Distinct members have distinct `lower_name` values. */
  lemma LowerNamesDistinct(c: CodesCategory, d: CodesCategory)
    requires c != d
    ensures LowerName(c) != LowerName(d)
  {
    MemberNamesDistinct(c, d);
    MemberNameIsUpper(c);
    MemberNameIsUpper(d);
    if LowerName(c) == LowerName(d) {
      LowerInjective(MemberName(c), MemberName(d));
    }
  }

  /** `name in CodesCategory._member_names_` followed by `getattr(CodesCategory, name)`. */
  function CategoryNamed(name: string): (r: Option<CodesCategory>)
    ensures r.Some? ==> MemberName(r.value) == name
    ensures r.None? ==> forall c :: MemberName(c) != name
  {
    if name == "STOCK" then Some(Stock)
    else if name == "WARRANT" then Some(Warrant)
    else if name == "SPECIAL_STOCK" then Some(SpecialStock)
    else if name == "INNOVATION_BOARD" then Some(InnovationBoard)
    else if name == "ETF" then Some(Etf)
    else if name == "ETN" then Some(Etn)
    else if name == "TDR" then Some(Tdr)
    else if name == "ASSET_BASED_SECURITIES" then Some(AssetBasedSecurities)
    else if name == "REIT" then Some(Reit)
    else if name == "OTC_WARRANT" then Some(OtcWarrant)
    else if name == "INDEX" then Some(Index)
    else None
  }

  /** A cell of a frame: text, or a null (`None` in Python, a missing value in pandas). */
  type Cell = Option<string>

  /** A row of a frame: exactly one cell per column. */
  type Row = r: seq<Cell> | |r| == 9 witness [None, None, None, None, None, None, None, None, None]

  /** A pandas frame with the nine columns, as its rows in order. */
  type Frame = seq<Row>
}
