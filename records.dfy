/** The `Resources` table: its 38 columns, the cells a row holds, the typed
    record (IResourcesRecord) a row is read back as, and the two conversions
    between them. */
module Records {
  import opened Common

  /** A stored value, one of SQLite's storage classes. */
  datatype Cell = Null | Int(n: int) | Text(s: string) | Blob(bytes: Bytes)

  /** One row of the table: a cell per column, in column order. */
  type Row = seq<Cell>

  datatype SqlType = INTEGER | TEXT | DATETIME | BLOB

  datatype Column = Column(name: string, sqlType: SqlType)

  const ColumnCount := 38

  /** The name of the column at each position, as the table declares it. */
  function ColumnName(i: int): string {
    match i
    case 0 => "id"
    case 1 => "devtoolsRequestId"
    case 2 => "tabId"
    case 3 => "frameId"
    case 4 => "socketId"
    case 5 => "protocol"
    case 6 => "type"
    case 7 => "receivedAtCommandId"
    case 8 => "seenAtCommandId"
    case 9 => "requestMethod"
    case 10 => "requestUrl"
    case 11 => "requestHeaders"
    case 12 => "requestTrailers"
    case 13 => "requestTimestamp"
    case 14 => "requestPostData"
    case 15 => "redirectedToUrl"
    case 16 => "statusCode"
    case 17 => "statusMessage"
    case 18 => "responseUrl"
    case 19 => "responseHeaders"
    case 20 => "responseTrailers"
    case 21 => "responseTimestamp"
    case 22 => "responseEncoding"
    case 23 => "responseData"
    case 24 => "responseDataBytes"
    case 25 => "dnsResolvedIp"
    case 26 => "isHttp2Push"
    case 27 => "usedArtificialCache"
    case 28 => "responseIntercepted"
    case 29 => "requestOriginalHeaders"
    case 30 => "responseOriginalHeaders"
    case 31 => "httpError"
    case 32 => "browserLoadedTimestamp"
    case 33 => "browserServedFromCache"
    case 34 => "browserLoadFailure"
    case 35 => "browserBlockedReason"
    case 36 => "browserCanceled"
    case 37 => "documentUrl"
    case _ => ""
  }

  /** The declared type of the column at each position. */
  function ColumnType(i: int): SqlType {
    match i
    case 0 => INTEGER
    case 1 => TEXT
    case 2 => INTEGER
    case 3 => INTEGER
    case 4 => INTEGER
    case 5 => TEXT
    case 6 => TEXT
    case 7 => INTEGER
    case 8 => INTEGER
    case 9 => TEXT
    case 10 => TEXT
    case 11 => TEXT
    case 12 => TEXT
    case 13 => DATETIME
    case 14 => TEXT
    case 15 => TEXT
    case 16 => INTEGER
    case 17 => TEXT
    case 18 => TEXT
    case 19 => TEXT
    case 20 => TEXT
    case 21 => DATETIME
    case 22 => TEXT
    case 23 => BLOB
    case 24 => INTEGER
    case 25 => TEXT
    case 26 => INTEGER
    case 27 => INTEGER
    case 28 => INTEGER
    case 29 => TEXT
    case 30 => TEXT
    case 31 => TEXT
    case 32 => DATETIME
    case 33 => TEXT
    case 34 => TEXT
    case 35 => TEXT
    case 36 => INTEGER
    case 37 => TEXT
    case _ => TEXT
  }

  /** The table's columns, in the order every row lists them. */
  const Columns: seq<Column> := seq(ColumnCount, i => Column(ColumnName(i), ColumnType(i)))

  // Positions of the columns the store reads or writes by position.
  const IdCol := 0
  const DevtoolsRequestIdCol := 1
  const TabIdCol := 2
  const SeenAtCommandIdCol := 8
  const RequestPostDataCol := 14
  const RedirectedToUrlCol := 15
  const StatusCodeCol := 16
  const ResponseHeadersCol := 19
  const ResponseEncodingCol := 22
  const ResponseDataCol := 23
  const BrowserLoadedTimestampCol := 32

  /** The boolean columns, stored as 1 or 0. */
  const FlagCols: set<int> := {26, 27, 28, 36}

  /** JavaScript truthiness of a value read from a row. A Buffer is an object,
      so it is truthy even when empty. */
  predicate Truthy(c: Cell) {
    match c
    case Null => false
    case Int(n) => n != 0
    case Text(s) => s != ""
    case Blob(_) => true
  }

  /** A cell that the column's declared type admits. */
  predicate Fits(c: Cell, t: SqlType) {
    c.Null? ||
    match t
    case INTEGER => c.Int?
    case DATETIME => c.Int?
    case TEXT => c.Text?
    case BLOB => c.Blob?
  }

  /** A row as the store writes it: one cell per column, each of the column's
      type, a non-null integer id and every flag 1 or 0. */
  ghost predicate WellFormed(row: Row) {
    && |row| == ColumnCount
    && row[IdCol].Int?
    && (forall i :: 0 <= i < ColumnCount ==> Fits(row[i], ColumnType(i)))
    && (forall i :: i in FlagCols ==> row[i] == Int(0) || row[i] == Int(1))
  }

  /** The id a row is keyed by (`x[0]`). */
  function RowId(row: Row): int {
    if |row| > IdCol && row[IdCol].Int? then row[IdCol].n else 0
  }

  /** A record of the table, as `get` returns it and `save` accepts it. The
      `type` column is called `resourceType` because `type` is reserved in
      Dafny; each boolean holds the truthiness of the stored flag. */
  datatype Resource = Resource(
    id: int,
    devtoolsRequestId: Option<string>,
    tabId: Option<int>,
    frameId: Option<int>,
    socketId: Option<int>,
    protocol: Option<string>,
    resourceType: Option<string>,
    receivedAtCommandId: Option<int>,
    seenAtCommandId: Option<int>,
    requestMethod: Option<string>,
    requestUrl: Option<string>,
    requestHeaders: Option<string>,
    requestTrailers: Option<string>,
    requestTimestamp: Option<int>,
    requestPostData: Option<string>,
    redirectedToUrl: Option<string>,
    statusCode: Option<int>,
    statusMessage: Option<string>,
    responseUrl: Option<string>,
    responseHeaders: Option<string>,
    responseTrailers: Option<string>,
    responseTimestamp: Option<int>,
    responseEncoding: Option<string>,
    responseData: Option<Bytes>,
    responseDataBytes: Option<int>,
    dnsResolvedIp: Option<string>,
    isHttp2Push: bool,
    usedArtificialCache: bool,
    responseIntercepted: bool,
    requestOriginalHeaders: Option<string>,
    responseOriginalHeaders: Option<string>,
    httpError: Option<string>,
    browserLoadedTimestamp: Option<int>,
    browserServedFromCache: Option<string>,
    browserLoadFailure: Option<string>,
    browserBlockedReason: Option<string>,
    browserCanceled: bool,
    documentUrl: Option<string>
  )

  function IntCell(v: Option<int>): Cell {
    if v.Some? then Int(v.value) else Null
  }

  function TextCell(v: Option<string>): Cell {
    if v.Some? then Text(v.value) else Null
  }

  function BlobCell(v: Option<Bytes>): Cell {
    if v.Some? then Blob(v.value) else Null
  }

  /** `flag ? 1 : 0` */
  function FlagCell(b: bool): Cell {
    if b then Int(1) else Int(0)
  }

  function IntAt(c: Cell): Option<int> {
    if c.Int? then Some(c.n) else None
  }

  function TextAt(c: Cell): Option<string> {
    if c.Text? then Some(c.s) else None
  }

  function BlobAt(c: Cell): Option<Bytes> {
    if c.Blob? then Some(c.bytes) else None
  }

  /** The cell `save` writes for a record in the column at position `i`:
      the field of that name, with each boolean written as 1 or 0. */
  function EncodeAt(r: Resource, i: int): Cell {
    if i < 9 then IdentityCell(r, i)
    else if i < 16 then RequestCell(r, i)
    else if i < 26 then ResponseCell(r, i)
    else ProcessingCell(r, i)
  }

  /** The cells of the columns about the resource and where it was seen. */
  function IdentityCell(r: Resource, i: int): Cell {
    match i
    case 0 => Int(r.id)
    case 1 => TextCell(r.devtoolsRequestId)
    case 2 => IntCell(r.tabId)
    case 3 => IntCell(r.frameId)
    case 4 => IntCell(r.socketId)
    case 5 => TextCell(r.protocol)
    case 6 => TextCell(r.resourceType)
    case 7 => IntCell(r.receivedAtCommandId)
    case 8 => IntCell(r.seenAtCommandId)
    case _ => Null
  }

  /** The cells of the columns about the request. */
  function RequestCell(r: Resource, i: int): Cell {
    match i
    case 9 => TextCell(r.requestMethod)
    case 10 => TextCell(r.requestUrl)
    case 11 => TextCell(r.requestHeaders)
    case 12 => TextCell(r.requestTrailers)
    case 13 => IntCell(r.requestTimestamp)
    case 14 => TextCell(r.requestPostData)
    case 15 => TextCell(r.redirectedToUrl)
    case _ => Null
  }

  /** The cells of the columns about the response. */
  function ResponseCell(r: Resource, i: int): Cell {
    match i
    case 16 => IntCell(r.statusCode)
    case 17 => TextCell(r.statusMessage)
    case 18 => TextCell(r.responseUrl)
    case 19 => TextCell(r.responseHeaders)
    case 20 => TextCell(r.responseTrailers)
    case 21 => IntCell(r.responseTimestamp)
    case 22 => TextCell(r.responseEncoding)
    case 23 => BlobCell(r.responseData)
    case 24 => IntCell(r.responseDataBytes)
    case 25 => TextCell(r.dnsResolvedIp)
    case _ => Null
  }

  /** The cells of the columns about how the exchange was processed. */
  function ProcessingCell(r: Resource, i: int): Cell {
    match i
    case 26 => FlagCell(r.isHttp2Push)
    case 27 => FlagCell(r.usedArtificialCache)
    case 28 => FlagCell(r.responseIntercepted)
    case 29 => TextCell(r.requestOriginalHeaders)
    case 30 => TextCell(r.responseOriginalHeaders)
    case 31 => TextCell(r.httpError)
    case 32 => IntCell(r.browserLoadedTimestamp)
    case 33 => TextCell(r.browserServedFromCache)
    case 34 => TextCell(r.browserLoadFailure)
    case 35 => TextCell(r.browserBlockedReason)
    case 36 => FlagCell(r.browserCanceled)
    case 37 => TextCell(r.documentUrl)
    case _ => Null
  }

  /** The row `save` queues for a record: a cell per column, in column order. */
  function Encode(r: Resource): (row: Row)
    ensures |row| == ColumnCount && RowId(row) == r.id
  {
    seq(ColumnCount, i => EncodeAt(r, i))
  }

  /** Every row `save` writes holds a value of each column's declared type, a
      non-null id and a 1 or 0 in each boolean column. */
  lemma EncodeWellFormed(r: Resource)
    ensures WellFormed(Encode(r))
  {
    var row := Encode(r);
    forall i | 0 <= i < ColumnCount
      ensures Fits(row[i], ColumnType(i)) && (i in FlagCols ==> row[i] == Int(0) || row[i] == Int(1))
    {
      EncodeAtFits(r, i);
    }
  }

  /** Each cell `save` writes is of its column's type, and a boolean column's
      cell is 1 or 0. */
  lemma EncodeAtFits(r: Resource, i: int)
    ensures Fits(EncodeAt(r, i), ColumnType(i))
    ensures i in FlagCols ==> EncodeAt(r, i) == Int(0) || EncodeAt(r, i) == Int(1)
  {
  }

  /** The record a stored row is read back as: each column becomes the field
      of the same name. */
  function Decode(row: Row): (r: Resource)
    requires |row| == ColumnCount
    ensures r.id == RowId(row)
  {
    Resource(
      RowId(row), TextAt(row[1]), IntAt(row[2]), IntAt(row[3]), IntAt(row[4]),
      TextAt(row[5]), TextAt(row[6]), IntAt(row[7]), IntAt(row[8]), TextAt(row[9]),
      TextAt(row[10]), TextAt(row[11]), TextAt(row[12]), IntAt(row[13]), TextAt(row[14]),
      TextAt(row[15]), IntAt(row[16]), TextAt(row[17]), TextAt(row[18]), TextAt(row[19]),
      TextAt(row[20]), IntAt(row[21]), TextAt(row[22]), BlobAt(row[23]), IntAt(row[24]),
      TextAt(row[25]), Truthy(row[26]), Truthy(row[27]), Truthy(row[28]), TextAt(row[29]),
      TextAt(row[30]), TextAt(row[31]), IntAt(row[32]), TextAt(row[33]), TextAt(row[34]),
      TextAt(row[35]), Truthy(row[36]), TextAt(row[37]))
  }

  /** A record survives being saved and read back unchanged. */
  lemma DecodeEncode(r: Resource)
    ensures Decode(Encode(r)) == r
  {
    EncodeKeepsIdentityFields(r);
    EncodeKeepsRequestFields(r);
    EncodeKeepsResponseFields(r);
    EncodeKeepsProcessingFields(r);
  }

  /** Reading back the columns about the resource and where it was seen gives the saved record's fields. */
  lemma EncodeKeepsIdentityFields(r: Resource)
    ensures TextAt(Encode(r)[1]) == r.devtoolsRequestId
    ensures IntAt(Encode(r)[2]) == r.tabId
    ensures IntAt(Encode(r)[3]) == r.frameId
    ensures IntAt(Encode(r)[4]) == r.socketId
    ensures TextAt(Encode(r)[5]) == r.protocol
    ensures TextAt(Encode(r)[6]) == r.resourceType
    ensures IntAt(Encode(r)[7]) == r.receivedAtCommandId
    ensures IntAt(Encode(r)[8]) == r.seenAtCommandId
  {
  }

  /** Reading back the columns about the request gives the saved record's fields. */
  lemma EncodeKeepsRequestFields(r: Resource)
    ensures TextAt(Encode(r)[9]) == r.requestMethod
    ensures TextAt(Encode(r)[10]) == r.requestUrl
    ensures TextAt(Encode(r)[11]) == r.requestHeaders
    ensures TextAt(Encode(r)[12]) == r.requestTrailers
    ensures IntAt(Encode(r)[13]) == r.requestTimestamp
    ensures TextAt(Encode(r)[14]) == r.requestPostData
    ensures TextAt(Encode(r)[15]) == r.redirectedToUrl
  {
  }

  /** Reading back the columns about the response gives the saved record's fields. */
  lemma EncodeKeepsResponseFields(r: Resource)
    ensures IntAt(Encode(r)[16]) == r.statusCode
    ensures TextAt(Encode(r)[17]) == r.statusMessage
    ensures TextAt(Encode(r)[18]) == r.responseUrl
    ensures TextAt(Encode(r)[19]) == r.responseHeaders
    ensures TextAt(Encode(r)[20]) == r.responseTrailers
    ensures IntAt(Encode(r)[21]) == r.responseTimestamp
    ensures TextAt(Encode(r)[22]) == r.responseEncoding
    ensures BlobAt(Encode(r)[23]) == r.responseData
    ensures IntAt(Encode(r)[24]) == r.responseDataBytes
    ensures TextAt(Encode(r)[25]) == r.dnsResolvedIp
  {
  }

  /** Reading back the columns about how the exchange was processed gives the saved record's fields. */
  lemma EncodeKeepsProcessingFields(r: Resource)
    ensures Truthy(Encode(r)[26]) == r.isHttp2Push
    ensures Truthy(Encode(r)[27]) == r.usedArtificialCache
    ensures Truthy(Encode(r)[28]) == r.responseIntercepted
    ensures TextAt(Encode(r)[29]) == r.requestOriginalHeaders
    ensures TextAt(Encode(r)[30]) == r.responseOriginalHeaders
    ensures TextAt(Encode(r)[31]) == r.httpError
    ensures IntAt(Encode(r)[32]) == r.browserLoadedTimestamp
    ensures TextAt(Encode(r)[33]) == r.browserServedFromCache
    ensures TextAt(Encode(r)[34]) == r.browserLoadFailure
    ensures TextAt(Encode(r)[35]) == r.browserBlockedReason
    ensures Truthy(Encode(r)[36]) == r.browserCanceled
    ensures TextAt(Encode(r)[37]) == r.documentUrl
  {
  }

  /** The position of the first column called `name`, or -1 when there is
      none (`columns.findIndex(x => x[0] === name)`). */
  function IndexOfColumn(cols: seq<Column>, name: string): (r: int)
    ensures -1 <= r < |cols|
    ensures r == -1 <==> forall j :: 0 <= j < |cols| ==> cols[j].name != name
    ensures r >= 0 ==> cols[r].name == name && forall j :: 0 <= j < r ==> cols[j].name != name
  {
    if |cols| == 0 then -1
    else if cols[0].name == name then 0
    else
      var k := IndexOfColumn(cols[1..], name);
      if k == -1 then -1 else k + 1
  }

  /** `browserLoadedTimestamp` is the column at position 32. */
  lemma BrowserLoadedTimestampIndex()
    ensures IndexOfColumn(Columns, "browserLoadedTimestamp") == BrowserLoadedTimestampCol
  {
    var r := IndexOfColumn(Columns, "browserLoadedTimestamp");
    assert Columns[BrowserLoadedTimestampCol].name == "browserLoadedTimestamp";
    assert r != -1;
    assert Columns[r].name == ColumnName(r);
    if r != BrowserLoadedTimestampCol {
      NameDiffers(r);
    }
  }

  /** Only the column at position 32 is called `browserLoadedTimestamp`. */
  lemma NameDiffers(j: int)
    requires 0 <= j < ColumnCount && j != BrowserLoadedTimestampCol
    ensures ColumnName(j) != "browserLoadedTimestamp"
  {
    var n := ColumnName(j);
    assert |n| != 22 || n[0] != 'b' || n[7] != 'L';
  }

  /** Writing a value of the column's type into a column other than the id and
      the flags keeps a row well formed. */
  lemma SetCellWellFormed(row: Row, col: int, c: Cell)
    requires WellFormed(row)
    requires 0 < col < ColumnCount && col !in FlagCols && Fits(c, ColumnType(col))
    ensures WellFormed(row[col := c])
  {
    var row' := row[col := c];
    forall i | 0 <= i < ColumnCount
      ensures Fits(row'[i], ColumnType(i))
    {
      if i != col {
        assert row'[i] == row[i];
      }
    }
  }

  /** Writing `browserLoadedTimestamp` into a row changes only that field of
      the record it reads back as. */
  lemma DecodeSetLoadedTimestamp(row: Row, timestamp: int)
    requires |row| == ColumnCount
    ensures Decode(row[BrowserLoadedTimestampCol := Int(timestamp)])
         == Decode(row).(browserLoadedTimestamp := Some(timestamp))
  {
  }

  /** Writing `devtoolsRequestId` and `tabId` into a row changes only those two
      fields of the record it reads back as. */
  lemma DecodeSetRequestId(row: Row, tabId: int, browserRequestId: string)
    requires |row| == ColumnCount
    ensures Decode(row[DevtoolsRequestIdCol := Text(browserRequestId)][TabIdCol := Int(tabId)])
         == Decode(row).(devtoolsRequestId := Some(browserRequestId), tabId := Some(tabId))
  {
  }

  /** Writing `seenAtCommandId` into a row changes only that field. */
  lemma DecodeSetSeenAt(row: Row, seenAtCommandId: int)
    requires |row| == ColumnCount
    ensures Decode(row[SeenAtCommandIdCol := Int(seenAtCommandId)])
         == Decode(row).(seenAtCommandId := Some(seenAtCommandId))
  {
  }
}
