/** Row extraction as values: what `Table.read_row`, `Table.get_hash_key`,
    `Table.__read_parent` and `Table.__read_child` compute
    (xmlorm/orm.py:252-307), stated as functions of a table's columns and a
    parsed document.  The loops that compute them are methods of Orm.Table. */
module Rows {
  import opened Wrappers
  import opened Strings
  import opened Columns
  import opened Xml

  /** A cell of a row: None, the element's text, or the result of `int(...)` /
      `float(...)`.  A float is carried as the text `str()` gives for it. */
  datatype Value = Null | Str(s: string) | Int(i: int) | Float(repr: string)

  /** A row dict, column name -> value. */
  type Row = map<string, Value>

  /** Python's `int(text)` and `float(text)`: None where they raise ValueError. */
  datatype Numeric = Numeric(toInt: string -> Option<int>, toFloat: string -> Option<string>)

  /** The errors a read can raise. */
  datatype ReadError =
    | BadNumber(tag: string, text: string)   // ValueError from int(...) / float(...)
    | MissingKey(key: string)                // KeyError from row[key] in get_hash_key
    | ParentWithoutHashKey                   // the assert at the top of __read_child

  /** `str(v)`. */
  function Show(v: Value): string
  {
    match v
    case Null => "None"
    case Str(s) => s
    case Int(i) => IntToString(i)
    case Float(r) => r
  }

  /** `if self.hash_key:` -- a hash key is set when it is given and non-empty. */
  predicate IsSet(hashKey: Option<seq<string>>)
  {
    hashKey.Some? && |hashKey.value| > 0
  }

  /** The value `read_row` stores for a matched child: its text, converted only
      for Integer and Real columns and only when the text is not None. */
  function Cell(t: ColumnType, tag: string, text: Option<string>, num: Numeric): (r: Result<Value, ReadError>)
    ensures text.None? ==> r == Success(Null)
    ensures text.Some? && t != Integer && t != Real ==> r == Success(Str(text.value))
    ensures text.Some? && t == Integer ==>
              && (r.Success? <==> num.toInt(text.value).Some?)
              && (r.Success? ==> r.value == Int(num.toInt(text.value).value))
    ensures text.Some? && t == Real ==>
              && (r.Success? <==> num.toFloat(text.value).Some?)
              && (r.Success? ==> r.value == Float(num.toFloat(text.value).value))
    ensures r.Failure? ==> text.Some? && r.error == BadNumber(tag, text.value)
  {
    match text
    case None => Success(Null)
    case Some(s) =>
      match t
      case Integer => (match num.toInt(s) case Some(i) => Success(Int(i)) case None => Failure(BadNumber(tag, s)))
      case Real => (match num.toFloat(s) case Some(f) => Success(Float(f)) case None => Failure(BadNumber(tag, s)))
      case _ => Success(Str(s))
  }

  /** `{k : None for k in self.columns.keys()}`. The ensures spell out the
      comprehension for the proofs that use it; RowFromValue states what a
      read row holds. */
  function EmptyRow(cols: ColumnDict): (row: Row)
    ensures row.Keys == cols.entries.Keys
    ensures forall k :: k in row ==> row[k] == Null
  {
    map k | k in cols.entries :: Null
  }

  /** The row built by `read_row` after visiting `children`, in order. */
  function RowFrom(cols: ColumnDict, children: seq<Element>, num: Numeric): (r: Result<Row, ReadError>)
    ensures r.Success? ==> r.value.Keys == cols.entries.Keys
  {
    if children == [] then Success(EmptyRow(cols))
    else
      match RowFrom(cols, children[..|children| - 1], num)
      case Failure(e) => Failure(e)
      case Success(row) =>
        var c := children[|children| - 1];
        if c.tag !in cols.entries then Success(row)
        else
          match Cell(cols.entries[c.tag].tpe, c.tag, c.text, num)
          case Failure(e) => Failure(e)
          case Success(v) => Success(row[c.tag := v])
  }

  /** `read_row(node)`. */
  function ReadRow(cols: ColumnDict, node: Element, num: Numeric): (r: Result<Row, ReadError>)
    ensures r.Success? ==> r.value.Keys == cols.entries.Keys
  {
    RowFrom(cols, node.children, num)
  }

  /** The last of `children` whose tag is `tag`. */
  function LastWithTag(children: seq<Element>, tag: string): (r: Option<Element>)
    ensures r.Some? ==> r.value in children && r.value.tag == tag
  {
    if children == [] then None
    else if children[|children| - 1].tag == tag then Some(children[|children| - 1])
    else LastWithTag(children[..|children| - 1], tag)
  }

  /** The value `read_row` gives column `name`: None when no child carries that
      tag, otherwise the converted text of the LAST child that does; children
      whose tag is no column name play no part. */
  lemma {:induction false} RowFromValue(cols: ColumnDict, children: seq<Element>, num: Numeric, name: string)
    requires RowFrom(cols, children, num).Success?
    requires name in cols.entries
    ensures LastWithTag(children, name).None? ==> RowFrom(cols, children, num).value[name] == Null
    ensures LastWithTag(children, name).Some? ==>
              var c := LastWithTag(children, name).value;
              Cell(cols.entries[name].tpe, name, c.text, num).Success? &&
              RowFrom(cols, children, num).value[name] == Cell(cols.entries[name].tpe, name, c.text, num).value
  {
    if children != [] {
      RowFromValue(cols, children[..|children| - 1], num, name);
    }
  }

  /** `read_row` fails exactly when some child that names a column carries text
      that its column's conversion rejects. */
  lemma {:induction false} RowFromFails(cols: ColumnDict, children: seq<Element>, num: Numeric)
    ensures RowFrom(cols, children, num).Failure? <==>
              exists i :: 0 <= i < |children| && children[i].tag in cols.entries &&
                Cell(cols.entries[children[i].tag].tpe, children[i].tag, children[i].text, num).Failure?
  {
    if children != [] {
      var front := children[..|children| - 1];
      RowFromFails(cols, front, num);
      assert forall i :: 0 <= i < |front| ==> front[i] == children[i];
    }
  }

  /** The text `get_hash_key` feeds to SHA-256: `str(row[k])` for each key in
      order, concatenated; a key missing from the row raises KeyError. */
  function HashInput(keys: seq<string>, row: Row): (r: Result<string, ReadError>)
    ensures r.Failure? ==> r.error.MissingKey? && r.error.key in keys && r.error.key !in row
  {
    if keys == [] then Success("")
    else
      match HashInput(keys[..|keys| - 1], row)
      case Failure(e) => Failure(e)
      case Success(s) =>
        var k := keys[|keys| - 1];
        if k in row then Success(s + Show(row[k])) else Failure(MissingKey(k))
  }

  /** `get_hash_key(row)`, with `digest` standing for `sha256(...).hexdigest()`
      of the UTF-8 encoding. */
  function HashKey(keys: seq<string>, row: Row, digest: string -> string): (r: Result<string, ReadError>)
    ensures r.Failure? ==> r.error.MissingKey? && r.error.key in keys && r.error.key !in row
    ensures (forall k :: k in keys ==> k in row) ==> r.Success?
  {
    HashInputFails(keys, row);
    match HashInput(keys, row)
    case Success(s) => Success(digest(s))
    case Failure(e) => Failure(e)
  }

  /** The hash depends on the row only through `str()` of the hash-key columns. */
  lemma {:induction false} HashInputAgrees(keys: seq<string>, r1: Row, r2: Row)
    requires forall k :: k in keys ==> (k in r1 <==> k in r2)
    requires forall k :: k in keys && k in r1 ==> Show(r1[k]) == Show(r2[k])
    ensures HashInput(keys, r1) == HashInput(keys, r2)
  {
    if keys != [] {
      HashInputAgrees(keys[..|keys| - 1], r1, r2);
    }
  }

  /** The hash fails exactly when a hash-key column is missing from the row, and
      reports the first such key. */
  lemma {:induction false} HashInputFails(keys: seq<string>, row: Row)
    ensures HashInput(keys, row).Failure? <==> exists i :: 0 <= i < |keys| && keys[i] !in row
    ensures HashInput(keys, row).Failure? ==>
              exists i :: 0 <= i < |keys| && HashInput(keys, row).error == MissingKey(keys[i]) &&
                keys[i] !in row && forall j :: 0 <= j < i ==> keys[j] in row
  {
    if keys != [] {
      var front := keys[..|keys| - 1];
      HashInputFails(front, row);
      assert forall i :: 0 <= i < |front| ==> front[i] == keys[i];
    }
  }

  /** One row of a root table: `read_row`, then `hash_id` when a hash key is set. */
  function RootRow(cols: ColumnDict, hashKey: Option<seq<string>>, el: Element, num: Numeric,
                   digest: string -> string): (r: Result<Row, ReadError>)
    ensures r.Success? ==> r.value.Keys == cols.entries.Keys + (if IsSet(hashKey) then {"hash_id"} else {})
  {
    match ReadRow(cols, el, num)
    case Failure(e) => Failure(e)
    case Success(row) =>
      if !IsSet(hashKey) then Success(row)
      else
        match HashKey(hashKey.value, row, digest)
        case Failure(e) => Failure(e)
        case Success(h) => Success(row["hash_id" := Str(h)])
  }

  /** `__read_parent`: the rows of the elements `els`, in order. */
  function RootRows(cols: ColumnDict, hashKey: Option<seq<string>>, els: seq<Element>, num: Numeric,
                    digest: string -> string): (r: Result<seq<Row>, ReadError>)
    ensures r.Success? ==> |r.value| == |els|
  {
    if els == [] then Success([])
    else
      match RootRows(cols, hashKey, els[..|els| - 1], num, digest)
      case Failure(e) => Failure(e)
      case Success(rows) =>
        match RootRow(cols, hashKey, els[|els| - 1], num, digest)
        case Failure(e) => Failure(e)
        case Success(row) => Success(rows + [row])
  }

  /** A root read succeeds exactly when every element's row does, and then gives
      one row per element, in document order. */
  lemma RootRowsAt(cols: ColumnDict, hashKey: Option<seq<string>>, els: seq<Element>,
                   num: Numeric, digest: string -> string)
    ensures RootRows(cols, hashKey, els, num, digest).Success? <==>
              forall i :: 0 <= i < |els| ==> RootRow(cols, hashKey, els[i], num, digest).Success?
    ensures RootRows(cols, hashKey, els, num, digest).Success? ==>
              var rows := RootRows(cols, hashKey, els, num, digest).value;
              |rows| == |els| &&
              forall i :: 0 <= i < |els| ==> Success(rows[i]) == RootRow(cols, hashKey, els[i], num, digest)
  {
    RootRowsSucceed(cols, hashKey, els, num, digest);
    if RootRows(cols, hashKey, els, num, digest).Success? {
      RootRowsEach(cols, hashKey, els, num, digest);
    }
  }

  lemma {:induction false} RootRowsSucceed(cols: ColumnDict, hashKey: Option<seq<string>>, els: seq<Element>,
                                           num: Numeric, digest: string -> string)
    ensures RootRows(cols, hashKey, els, num, digest).Success? <==>
              forall i :: 0 <= i < |els| ==> RootRow(cols, hashKey, els[i], num, digest).Success?
  {
    if els != [] {
      var front := els[..|els| - 1];
      RootRowsSucceed(cols, hashKey, front, num, digest);
      assert forall i :: 0 <= i < |front| ==> front[i] == els[i];
    }
  }

  lemma {:induction false} RootRowsEach(cols: ColumnDict, hashKey: Option<seq<string>>, els: seq<Element>,
                                        num: Numeric, digest: string -> string)
    requires RootRows(cols, hashKey, els, num, digest).Success?
    ensures var rows := RootRows(cols, hashKey, els, num, digest).value;
            |rows| == |els| &&
            forall i :: 0 <= i < |els| ==> Success(rows[i]) == RootRow(cols, hashKey, els[i], num, digest)
  {
    if els != [] {
      var front := els[..|els| - 1];
      RootRowsEach(cols, hashKey, front, num, digest);
      assert forall i :: 0 <= i < |front| ==> front[i] == els[i];
    }
  }

  /** With a hash key set, a root row carries the columns plus `hash_id`, and
      `hash_id` is the digest of the row `read_row` produced. */
  lemma RootRowHashId(cols: ColumnDict, hashKey: Option<seq<string>>, el: Element, num: Numeric,
                      digest: string -> string)
    requires RootRow(cols, hashKey, el, num, digest).Success?
    ensures ReadRow(cols, el, num).Success?
    ensures var row := RootRow(cols, hashKey, el, num, digest).value;
            if IsSet(hashKey) then
              row.Keys == cols.entries.Keys + {"hash_id"} &&
              row["hash_id"] == Str(HashKey(hashKey.value, ReadRow(cols, el, num).value, digest).value)
            else row.Keys == cols.entries.Keys
  {
  }

  /** One child row of `__read_child`: `read_row`, then `parent_hash`. */
  function ChildRow(cols: ColumnDict, el: Element, parentHash: string, num: Numeric): (r: Result<Row, ReadError>)
    ensures r.Success? ==> r.value.Keys == cols.entries.Keys + {"parent_hash"} && r.value["parent_hash"] == Str(parentHash)
  {
    match ReadRow(cols, el, num)
    case Failure(e) => Failure(e)
    case Success(row) => Success(row["parent_hash" := Str(parentHash)])
  }

  /** A child row carries `parent_hash` and the table's columns, and nothing
      computes its `hash_id`: even for a child table with a hash key, that
      column stays None unless the element has a child tagged "hash_id". */
  lemma ChildRowHashIdUnset(cols: ColumnDict, el: Element, parentHash: string, num: Numeric)
    requires ChildRow(cols, el, parentHash, num).Success?
    ensures ChildRow(cols, el, parentHash, num).value.Keys == cols.entries.Keys + {"parent_hash"}
    ensures ChildRow(cols, el, parentHash, num).value["parent_hash"] == Str(parentHash)
    ensures "hash_id" in cols.entries && LastWithTag(el.children, "hash_id").None? ==>
              ChildRow(cols, el, parentHash, num).value["hash_id"] == Null
  {
    if "hash_id" in cols.entries {
      RowFromValue(cols, el.children, num, "hash_id");
    }
  }

  /** The rows of the child elements `els` of one parent whose hash is `parentHash`. */
  function ChildRowsUnder(cols: ColumnDict, els: seq<Element>, parentHash: string, num: Numeric): (r: Result<seq<Row>, ReadError>)
    ensures r.Success? ==> |r.value| == |els|
  {
    if els == [] then Success([])
    else
      match ChildRowsUnder(cols, els[..|els| - 1], parentHash, num)
      case Failure(e) => Failure(e)
      case Success(rows) =>
        match ChildRow(cols, els[|els| - 1], parentHash, num)
        case Failure(e) => Failure(e)
        case Success(row) => Success(rows + [row])
  }

  /** The hash of one parent element: the parent table's `read_row`, then its `get_hash_key`. */
  function ParentHash(parentCols: ColumnDict, parentKey: seq<string>, parent: Element, num: Numeric,
                      digest: string -> string): Result<string, ReadError>
  {
    match ReadRow(parentCols, parent, num)
    case Failure(e) => Failure(e)
    case Success(prow) => HashKey(parentKey, prow, digest)
  }

  /** The body of the outer loop of `__read_child` for one parent element. */
  function ChildRowsOf(parentCols: ColumnDict, parentKey: seq<string>, cols: ColumnDict, tagName: string,
                       parent: Element, num: Numeric, digest: string -> string): Result<seq<Row>, ReadError>
  {
    match ParentHash(parentCols, parentKey, parent, num, digest)
    case Failure(e) => Failure(e)
    case Success(h) => ChildRowsUnder(cols, FindAll(parent, tagName), h, num)
  }

  /** `__read_child` over the parent elements `parents`. */
  function ChildRows(parentCols: ColumnDict, parentKey: seq<string>, cols: ColumnDict, tagName: string,
                     parents: seq<Element>, num: Numeric, digest: string -> string): (r: Result<seq<Row>, ReadError>)
    ensures r.Success? ==> |r.value| == |FindEach(parents, tagName)|
  {
    if parents == [] then Success([])
    else
      match ChildRows(parentCols, parentKey, cols, tagName, parents[..|parents| - 1], num, digest)
      case Failure(e) => Failure(e)
      case Success(rows) =>
        match ChildRowsOf(parentCols, parentKey, cols, tagName, parents[|parents| - 1], num, digest)
        case Failure(e) => Failure(e)
        case Success(more) => Success(rows + more)
  }

  /** Where the rows of parent `i` start: the number of child elements of the parents before it. */
  function Offset(parents: seq<Element>, tagName: string, i: nat): nat
    requires i <= |parents|
  {
    |FindEach(parents[..i], tagName)|
  }

  lemma {:induction false} ChildRowsUnderAt(cols: ColumnDict, els: seq<Element>, parentHash: string, num: Numeric)
    requires ChildRowsUnder(cols, els, parentHash, num).Success?
    ensures var rows := ChildRowsUnder(cols, els, parentHash, num).value;
            |rows| == |els| &&
            forall j :: 0 <= j < |els| ==> Success(rows[j]) == ChildRow(cols, els[j], parentHash, num)
  {
    if els != [] {
      var front := els[..|els| - 1];
      ChildRowsUnderAt(cols, front, parentHash, num);
      assert forall j :: 0 <= j < |front| ==> front[j] == els[j];
    }
  }

  /** The rows `rows[Offset(i)..]` are those of the children of parent `i`: the
      j-th child element's `read_row` with `parent_hash` set to the hash of
      parent `i`. */
  ghost predicate RowsOfParentAt(rows: seq<Row>, parentCols: ColumnDict, parentKey: seq<string>, cols: ColumnDict,
                                 tagName: string, parents: seq<Element>, num: Numeric,
                                 digest: string -> string, i: nat)
    requires i < |parents|
  {
    var kids := FindAll(parents[i], tagName);
    var start := Offset(parents, tagName, i);
    && ParentHash(parentCols, parentKey, parents[i], num, digest).Success?
    && start + |kids| <= |rows|
    && forall j :: 0 <= j < |kids| ==>
         Success(rows[start + j]) == ChildRow(cols, kids[j], ParentHash(parentCols, parentKey, parents[i], num, digest).value, num)
  }

  /** A child read lists its rows parent-major and child-minor: one row per
      element the child path matches, and the row of the j-th child element of
      the i-th parent element sits at Offset(i) + j and is that element's
      `read_row` with `parent_hash` set to the hash of its own parent. */
  lemma {:induction false} ChildRowsAt(parentCols: ColumnDict, parentKey: seq<string>, cols: ColumnDict,
                                       tagName: string, parents: seq<Element>, num: Numeric,
                                       digest: string -> string)
    requires ChildRows(parentCols, parentKey, cols, tagName, parents, num, digest).Success?
    ensures var rows := ChildRows(parentCols, parentKey, cols, tagName, parents, num, digest).value;
            && |rows| == |FindEach(parents, tagName)|
            && forall i :: 0 <= i < |parents| ==>
                 RowsOfParentAt(rows, parentCols, parentKey, cols, tagName, parents, num, digest, i)
  {
    if parents != [] {
      var n := |parents| - 1;
      var front := parents[..n];
      ChildRowsAt(parentCols, parentKey, cols, tagName, front, num, digest);
      var frontRows := ChildRows(parentCols, parentKey, cols, tagName, front, num, digest).value;
      var more := ChildRowsLast(parentCols, parentKey, cols, tagName, parents, num, digest);
      var rows := frontRows + more;
      forall i | 0 <= i < |parents|
        ensures RowsOfParentAt(rows, parentCols, parentKey, cols, tagName, parents, num, digest, i)
      {
        if i < n {
          FrontRowsKept(frontRows, more, parentCols, parentKey, cols, tagName, parents, num, digest, i);
        } else {
          LastRowsPlaced(frontRows, more, parentCols, parentKey, cols, tagName, parents, num, digest);
        }
      }
    }
  }

  /** A successful child read is the read of all parents but the last, followed
      by the rows under the last parent, one per child element. */
  lemma ChildRowsLast(parentCols: ColumnDict, parentKey: seq<string>, cols: ColumnDict,
                      tagName: string, parents: seq<Element>, num: Numeric,
                      digest: string -> string) returns (more: seq<Row>)
    requires parents != []
    requires ChildRows(parentCols, parentKey, cols, tagName, parents, num, digest).Success?
    ensures var n := |parents| - 1;
            && ChildRows(parentCols, parentKey, cols, tagName, parents[..n], num, digest).Success?
            && ParentHash(parentCols, parentKey, parents[n], num, digest).Success?
            && ChildRowsUnder(cols, FindAll(parents[n], tagName),
                              ParentHash(parentCols, parentKey, parents[n], num, digest).value, num) == Success(more)
            && |more| == |FindAll(parents[n], tagName)|
            && ChildRows(parentCols, parentKey, cols, tagName, parents, num, digest).value
               == ChildRows(parentCols, parentKey, cols, tagName, parents[..n], num, digest).value + more
            && |FindEach(parents, tagName)| == |FindEach(parents[..n], tagName)| + |more|
  {
    var n := |parents| - 1;
    var h := ParentHash(parentCols, parentKey, parents[n], num, digest).value;
    var kids := FindAll(parents[n], tagName);
    more := ChildRowsUnder(cols, kids, h, num).value;
    ChildRowsUnderAt(cols, kids, h, num);
  }

  /** The last parent's rows, appended after the rows of the parents before it, sit at its offset. */
  lemma LastRowsPlaced(frontRows: seq<Row>, more: seq<Row>, parentCols: ColumnDict, parentKey: seq<string>,
                       cols: ColumnDict, tagName: string, parents: seq<Element>, num: Numeric,
                       digest: string -> string)
    requires |parents| > 0
    requires |frontRows| == |FindEach(parents[..|parents| - 1], tagName)|
    requires var n := |parents| - 1;
             && ParentHash(parentCols, parentKey, parents[n], num, digest).Success?
             && ChildRowsUnder(cols, FindAll(parents[n], tagName),
                               ParentHash(parentCols, parentKey, parents[n], num, digest).value, num) == Success(more)
    ensures RowsOfParentAt(frontRows + more, parentCols, parentKey, cols, tagName, parents, num, digest, |parents| - 1)
  {
    var n := |parents| - 1;
    var h := ParentHash(parentCols, parentKey, parents[n], num, digest).value;
    var kids := FindAll(parents[n], tagName);
    ChildRowsUnderAt(cols, kids, h, num);
    assert Offset(parents, tagName, n) == |frontRows|;
    forall j | 0 <= j < |kids| ensures (frontRows + more)[|frontRows| + j] == more[j] { }
  }

  /** Appending the last parent's rows keeps the earlier parents' rows in place. */
  lemma FrontRowsKept(frontRows: seq<Row>, more: seq<Row>, parentCols: ColumnDict, parentKey: seq<string>,
                      cols: ColumnDict, tagName: string, parents: seq<Element>, num: Numeric,
                      digest: string -> string, i: nat)
    requires i < |parents| - 1
    requires RowsOfParentAt(frontRows, parentCols, parentKey, cols, tagName, parents[..|parents| - 1], num, digest, i)
    ensures RowsOfParentAt(frontRows + more, parentCols, parentKey, cols, tagName, parents, num, digest, i)
  {
    var front := parents[..|parents| - 1];
    assert front[i] == parents[i];
    assert front[..i] == parents[..i];
    assert forall k :: 0 <= k < |frontRows| ==> (frontRows + more)[k] == frontRows[k];
  }

  /** The round trip between the two reads: for a root parent table with a hash
      key, every child row's `parent_hash` equals the `hash_id` of the row read
      from the same parent element. */
  lemma ParentHashIsHashId(parentCols: ColumnDict, parentKey: seq<string>, cols: ColumnDict, tagName: string,
                           parents: seq<Element>, num: Numeric, digest: string -> string, i: nat, j: nat)
    requires |parentKey| > 0
    requires RootRows(parentCols, Some(parentKey), parents, num, digest).Success?
    requires ChildRows(parentCols, parentKey, cols, tagName, parents, num, digest).Success?
    requires i < |parents| && j < |FindAll(parents[i], tagName)|
    ensures var prows := RootRows(parentCols, Some(parentKey), parents, num, digest).value;
            var crows := ChildRows(parentCols, parentKey, cols, tagName, parents, num, digest).value;
            && i < |prows| && Offset(parents, tagName, i) + j < |crows|
            && "hash_id" in prows[i] && "parent_hash" in crows[Offset(parents, tagName, i) + j]
            && crows[Offset(parents, tagName, i) + j]["parent_hash"] == prows[i]["hash_id"]
  {
    ChildRowParentHash(parentCols, parentKey, cols, tagName, parents, num, digest, i, j);
    RootRowParentHash(parentCols, parentKey, parents, num, digest, i);
  }

  /** The child row of child j of parent i carries the hash of parent i. */
  lemma ChildRowParentHash(parentCols: ColumnDict, parentKey: seq<string>, cols: ColumnDict, tagName: string,
                           parents: seq<Element>, num: Numeric, digest: string -> string, i: nat, j: nat)
    requires ChildRows(parentCols, parentKey, cols, tagName, parents, num, digest).Success?
    requires i < |parents| && j < |FindAll(parents[i], tagName)|
    ensures ParentHash(parentCols, parentKey, parents[i], num, digest).Success?
    ensures var crows := ChildRows(parentCols, parentKey, cols, tagName, parents, num, digest).value;
            && Offset(parents, tagName, i) + j < |crows|
            && "parent_hash" in crows[Offset(parents, tagName, i) + j]
            && crows[Offset(parents, tagName, i) + j]["parent_hash"]
               == Str(ParentHash(parentCols, parentKey, parents[i], num, digest).value)
  {
    var crows := ChildRows(parentCols, parentKey, cols, tagName, parents, num, digest).value;
    ChildRowsOfParent(crows, parentCols, parentKey, cols, tagName, parents, num, digest, i);
    var h := ParentHash(parentCols, parentKey, parents[i], num, digest).value;
    var k := Offset(parents, tagName, i) + j;
    assert Success(crows[k]) == ChildRow(cols, FindAll(parents[i], tagName)[j], h, num);
  }

  /** One parent's block of a successful child read, taken out of ChildRowsAt. */
  lemma ChildRowsOfParent(crows: seq<Row>, parentCols: ColumnDict, parentKey: seq<string>, cols: ColumnDict,
                          tagName: string, parents: seq<Element>, num: Numeric, digest: string -> string, i: nat)
    requires ChildRows(parentCols, parentKey, cols, tagName, parents, num, digest) == Success(crows)
    requires i < |parents|
    ensures RowsOfParentAt(crows, parentCols, parentKey, cols, tagName, parents, num, digest, i)
  {
    ChildRowsAt(parentCols, parentKey, cols, tagName, parents, num, digest);
  }

  /** Every position of a child read lies in the block of one parent element:
      position k is child j of parent i. */
  lemma {:induction false} OffsetCovers(parents: seq<Element>, tagName: string, k: nat) returns (i: nat, j: nat)
    requires k < |FindEach(parents, tagName)|
    ensures i < |parents| && j < |FindAll(parents[i], tagName)| && k == Offset(parents, tagName, i) + j
    decreases |parents|
  {
    var n := |parents| - 1;
    var front := parents[..n];
    if k < |FindEach(front, tagName)| {
      i, j := OffsetCovers(front, tagName, k);
      assert front[..i] == parents[..i];
      assert front[i] == parents[i];
    } else {
      i, j := n, k - |FindEach(front, tagName)|;
    }
  }

  /** Every child row read under a root parent table points at a parent row:
      its `parent_hash` is the `hash_id` of the row read from its parent element. */
  lemma ChildRowsCarryParentHashId(parentCols: ColumnDict, parentKey: seq<string>, cols: ColumnDict, tagName: string,
                                   parents: seq<Element>, num: Numeric, digest: string -> string)
    requires |parentKey| > 0
    requires RootRows(parentCols, Some(parentKey), parents, num, digest).Success?
    requires ChildRows(parentCols, parentKey, cols, tagName, parents, num, digest).Success?
    ensures var prows := RootRows(parentCols, Some(parentKey), parents, num, digest).value;
            var crows := ChildRows(parentCols, parentKey, cols, tagName, parents, num, digest).value;
            forall k :: 0 <= k < |crows| ==>
              && "parent_hash" in crows[k]
              && exists i :: 0 <= i < |prows| && "hash_id" in prows[i] && crows[k]["parent_hash"] == prows[i]["hash_id"]
  {
    var prows := RootRows(parentCols, Some(parentKey), parents, num, digest).value;
    var crows := ChildRows(parentCols, parentKey, cols, tagName, parents, num, digest).value;
    forall k | 0 <= k < |crows|
      ensures && "parent_hash" in crows[k]
              && exists i :: 0 <= i < |prows| && "hash_id" in prows[i] && crows[k]["parent_hash"] == prows[i]["hash_id"]
    {
      var i, j := OffsetCovers(parents, tagName, k);
      ParentHashIsHashId(parentCols, parentKey, cols, tagName, parents, num, digest, i, j);
      assert 0 <= i < |prows| && "hash_id" in prows[i] && crows[k]["parent_hash"] == prows[i]["hash_id"];
    }
  }

  /** The root row of parent i carries, as `hash_id`, the hash of parent i. */
  lemma RootRowParentHash(parentCols: ColumnDict, parentKey: seq<string>, parents: seq<Element>, num: Numeric,
                          digest: string -> string, i: nat)
    requires |parentKey| > 0
    requires RootRows(parentCols, Some(parentKey), parents, num, digest).Success?
    requires i < |parents|
    ensures ParentHash(parentCols, parentKey, parents[i], num, digest).Success?
    ensures var prows := RootRows(parentCols, Some(parentKey), parents, num, digest).value;
            && i < |prows| && "hash_id" in prows[i]
            && prows[i]["hash_id"] == Str(ParentHash(parentCols, parentKey, parents[i], num, digest).value)
  {
    var prows := RootRows(parentCols, Some(parentKey), parents, num, digest).value;
    RootRowsAt(parentCols, Some(parentKey), parents, num, digest);
    assert Success(prows[i]) == RootRow(parentCols, Some(parentKey), parents[i], num, digest);
    RootRowHashId(parentCols, Some(parentKey), parents[i], num, digest);
  }

  // A fold that has failed on a prefix has failed on the whole input: each loop
  // that returns at its first error computes the same result as the fold.

  lemma {:induction false} RowFromFailed(cols: ColumnDict, children: seq<Element>, num: Numeric, i: nat)
    requires i <= |children| && RowFrom(cols, children[..i], num).Failure?
    ensures RowFrom(cols, children, num) == RowFrom(cols, children[..i], num)
    decreases |children|
  {
    if i < |children| {
      var front := children[..|children| - 1];
      assert front[..i] == children[..i];
      RowFromFailed(cols, front, num, i);
    } else {
      assert children[..i] == children;
    }
  }

  lemma {:induction false} HashInputFailed(keys: seq<string>, row: Row, i: nat)
    requires i <= |keys| && HashInput(keys[..i], row).Failure?
    ensures HashInput(keys, row) == HashInput(keys[..i], row)
    decreases |keys|
  {
    if i < |keys| {
      var front := keys[..|keys| - 1];
      assert front[..i] == keys[..i];
      HashInputFailed(front, row, i);
    } else {
      assert keys[..i] == keys;
    }
  }

  lemma {:induction false} RootRowsFailed(cols: ColumnDict, hashKey: Option<seq<string>>, els: seq<Element>,
                                          num: Numeric, digest: string -> string, i: nat)
    requires i <= |els| && RootRows(cols, hashKey, els[..i], num, digest).Failure?
    ensures RootRows(cols, hashKey, els, num, digest) == RootRows(cols, hashKey, els[..i], num, digest)
    decreases |els|
  {
    if i < |els| {
      var front := els[..|els| - 1];
      assert front[..i] == els[..i];
      RootRowsFailed(cols, hashKey, front, num, digest, i);
    } else {
      assert els[..i] == els;
    }
  }

  lemma {:induction false} ChildRowsUnderFailed(cols: ColumnDict, els: seq<Element>, parentHash: string, num: Numeric, i: nat)
    requires i <= |els| && ChildRowsUnder(cols, els[..i], parentHash, num).Failure?
    ensures ChildRowsUnder(cols, els, parentHash, num) == ChildRowsUnder(cols, els[..i], parentHash, num)
    decreases |els|
  {
    if i < |els| {
      var front := els[..|els| - 1];
      assert front[..i] == els[..i];
      ChildRowsUnderFailed(cols, front, parentHash, num, i);
    } else {
      assert els[..i] == els;
    }
  }

  /** One more parent: its rows are appended, or its error ends the read. */
  lemma ChildRowsExtend(parentCols: ColumnDict, parentKey: seq<string>, cols: ColumnDict, tagName: string,
                        parents: seq<Element>, num: Numeric, digest: string -> string, i: nat, rows: seq<Row>)
    requires i < |parents|
    requires ChildRows(parentCols, parentKey, cols, tagName, parents[..i], num, digest) == Success(rows)
    ensures var step := ChildRowsOf(parentCols, parentKey, cols, tagName, parents[i], num, digest);
            ChildRows(parentCols, parentKey, cols, tagName, parents[..i + 1], num, digest)
            == if step.Failure? then Failure(step.error) else Success(rows + step.value)
  {
    assert parents[..i + 1][..i] == parents[..i];
  }

  lemma {:induction false} ChildRowsFailed(parentCols: ColumnDict, parentKey: seq<string>, cols: ColumnDict,
                                           tagName: string, parents: seq<Element>, num: Numeric,
                                           digest: string -> string, i: nat)
    requires i <= |parents| && ChildRows(parentCols, parentKey, cols, tagName, parents[..i], num, digest).Failure?
    ensures ChildRows(parentCols, parentKey, cols, tagName, parents, num, digest)
            == ChildRows(parentCols, parentKey, cols, tagName, parents[..i], num, digest)
    decreases |parents|
  {
    if i < |parents| {
      var front := parents[..|parents| - 1];
      assert front[..i] == parents[..i];
      ChildRowsFailed(parentCols, parentKey, cols, tagName, front, num, digest, i);
    } else {
      assert parents[..i] == parents;
    }
  }
}
