/** The two formatters of one lookup result, `extract_phones_from_result` and
    `format_full_result`, over a typed model of the service's JSON reply. */
module Results {
  import opened Text

  /** A field value: a string or a list of strings. */
  datatype Value = Str(s: string) | List(items: seq<string>)

  /** A matched record: its fields in the order the reply lists them. A
      record decoded from JSON names each key once (`KeysUnique`); the
      formatters below are defined on any sequence of fields, and the
      lemmas that depend on unique keys say so. */
  type Record = seq<(string, Value)>

  /** No key appears twice, as in a Python dict. */
  predicate KeysUnique(r: Record)
  {
    forall a, b :: 0 <= a < b < |r| ==> r[a].0 != r[b].0
  }

  /** The reply object. An absent `status` is false, an absent `counts` is 0,
      an absent `data` is the empty list; `message` may be absent. */
  datatype Response = Response(status: bool, message: Option<string>, counts: int, data: seq<Record>)

  const TABLE_NAME := "table_name"
  const UNKNOWN_TABLE := "Неизвестно"
  const UNKNOWN_ERROR := "неизвестная ошибка"

  function Elems(s: seq<string>): set<string> { set x | x in s }

  lemma ElemsAppend(a: seq<string>, b: seq<string>)
    ensures Elems(a + b) == Elems(a) + Elems(b)
  {
    assert forall x :: x in a + b <==> x in a || x in b;
  }

  lemma EmptyElems(s: seq<string>)
    ensures Elems(s) == {} ==> s == []
  {
    if s != [] {
      assert s[0] in Elems(s);
    }
  }

  // -----------------------------------------------------------------------
  // extract_phones_from_result

  /** A field whose lower-cased name mentions "phone" or "телефон". */
  predicate IsPhoneKey(key: string)
  {
    Contains(Lower(key), "phone") || Contains(Lower(key), "телефон")
  }

  /** The non-empty elements of a list, in order. */
  function NonEmpty(l: seq<string>): seq<string>
  {
    if l == [] then []
    else NonEmpty(l[..|l| - 1]) + if l[|l| - 1] != "" then [l[|l| - 1]] else []
  }

  lemma {:induction false} NonEmptyElems(l: seq<string>)
    ensures Elems(NonEmpty(l)) == set x | x in l && x != ""
  {
    if l != [] {
      var init, last := l[..|l| - 1], l[|l| - 1];
      NonEmptyElems(init);
      ElemsAppend(NonEmpty(init), if last != "" then [last] else []);
      assert l == init + [last];
    }
  }

  /** What one field adds to the phone set: its non-empty values when its
      name is a phone name, and whatever the phone pattern `findall` matches
      in a string value of 10 or more characters, whatever the name. */
  function FieldPhones(key: string, v: Value, findall: string -> seq<string>): seq<string>
  {
    (if !IsPhoneKey(key) then []
     else match v
       case List(l) => NonEmpty(l)
       case Str(s) => if s != "" then [s] else [])
    + (if v.Str? && |v.s| >= 10 then findall(v.s) else [])
  }

  function RecordPhones(r: Record, findall: string -> seq<string>): seq<string>
  {
    if r == [] then []
    else RecordPhones(r[..|r| - 1], findall) + FieldPhones(r[|r| - 1].0, r[|r| - 1].1, findall)
  }

  function DataPhones(data: seq<Record>, findall: string -> seq<string>): seq<string>
  {
    if data == [] then []
    else DataPhones(data[..|data| - 1], findall) + RecordPhones(data[|data| - 1], findall)
  }

  /** Every element before every later one in Python's string order: sorted
      and without duplicates. */
  predicate StrictlySorted(s: seq<string>)
  {
    forall i, j :: 0 <= i < j < |s| ==> Less(s[i], s[j])
  }

  /** Inserts `x` into a strictly sorted list unless it is already there. */
  function InsertSorted(s: seq<string>, x: string): (r: seq<string>)
  {
    if s == [] then [x]
    else if x == s[0] then s
    else if Less(x, s[0]) then [x] + s
    else [s[0]] + InsertSorted(s[1..], x)
  }

  /** `sorted(set(xs))`. */
  function SortDedup(xs: seq<string>): seq<string>
  {
    if xs == [] then [] else InsertSorted(SortDedup(xs[..|xs| - 1]), xs[|xs| - 1])
  }

  /** What `extract_phones_from_result` returns. */
  function PhonesText(resp: Response, findall: string -> seq<string>): string
  {
    if !resp.status || resp.counts == 0 then ""
    else Join(SortDedup(DataPhones(resp.data, findall)), ", ")
  }

  /** A head below every element of a sorted tail gives a sorted list. */
  lemma ConsSorted(h: string, t: seq<string>)
    requires StrictlySorted(t)
    requires forall y :: y in t ==> Less(h, y)
    ensures StrictlySorted([h] + t)
  {
    forall i, j | 0 <= i < j < |[h] + t|
      ensures Less(([h] + t)[i], ([h] + t)[j])
    {
      if i > 0 {
        assert ([h] + t)[i] == t[i - 1] && ([h] + t)[j] == t[j - 1];
      } else {
        assert t[j - 1] in t;
      }
    }
  }

  /** Inserting below the head puts the new element in front. */
  lemma InsertFront(s: seq<string>, x: string)
    requires StrictlySorted(s) && s != [] && Less(x, s[0])
    ensures StrictlySorted([x] + s)
    ensures Elems([x] + s) == Elems(s) + {x}
  {
    forall y | y in s ensures Less(x, y) {
      if y != s[0] {
        SortedHeadLeast(s, y);
        LessTransitive(x, s[0], y);
      }
    }
    ConsSorted(x, s);
    ElemsAppend([x], s);
  }

  /** Inserting above the head keeps the head below everything. */
  lemma HeadBelowInserted(s: seq<string>, x: string, t: seq<string>)
    requires StrictlySorted(s) && s != [] && Less(s[0], x)
    requires Elems(t) == Elems(s[1..]) + {x} && Elems(s[1..]) == Elems(s) - {s[0]}
    ensures forall y :: y in t ==> Less(s[0], y)
  {
    forall y | y in t ensures Less(s[0], y) {
      assert y in Elems(t);
      if y != x {
        assert y in Elems(s) && y != s[0];
        SortedHeadLeast(s, y);
      }
    }
  }

  lemma {:induction false} InsertSortedCorrect(s: seq<string>, x: string)
    requires StrictlySorted(s)
    ensures StrictlySorted(InsertSorted(s, x))
    ensures Elems(InsertSorted(s, x)) == Elems(s) + {x}
  {
    if s == [] {
    } else if x == s[0] {
    } else if Less(x, s[0]) {
      InsertFront(s, x);
    } else {
      LessTotal(x, s[0]);
      SortedTail(s);
      InsertSortedCorrect(s[1..], x);
      var t := InsertSorted(s[1..], x);
      HeadBelowInserted(s, x, t);
      ConsSorted(s[0], t);
      ElemsAppend([s[0]], t);
      assert s[0] in Elems(s);
    }
  }

  lemma {:induction false} SortDedupCorrect(xs: seq<string>)
    ensures StrictlySorted(SortDedup(xs))
    ensures Elems(SortDedup(xs)) == Elems(xs)
  {
    if xs != [] {
      var init := xs[..|xs| - 1];
      SortDedupCorrect(init);
      InsertSortedCorrect(SortDedup(init), xs[|xs| - 1]);
      assert xs == init + [xs[|xs| - 1]];
      ElemsAppend(init, [xs[|xs| - 1]]);
    }
  }

  /** The tail of a sorted list holds every element but the head. */
  lemma SortedTail(a: seq<string>)
    requires StrictlySorted(a) && a != []
    ensures StrictlySorted(a[1..])
    ensures Elems(a[1..]) == Elems(a) - {a[0]}
  {
    var tail := a[1..];
    forall i, j | 0 <= i < j < |tail| ensures Less(tail[i], tail[j]) {
      assert tail[i] == a[i + 1] && tail[j] == a[j + 1];
    }
    assert a == [a[0]] + tail;
    ElemsAppend([a[0]], tail);
    forall y | y in tail ensures y != a[0] {
      var j :| 0 <= j < |tail| && tail[j] == y;
      assert Less(a[0], a[j + 1]);
      LessIrreflexive(a[0]);
    }
  }

  /** The head of a sorted list is below every other element. */
  lemma SortedHeadLeast(a: seq<string>, y: string)
    requires StrictlySorted(a) && a != [] && y in a && y != a[0]
    ensures Less(a[0], y)
  {
    var j :| 0 <= j < |a| && a[j] == y;
  }

  /** A set has one strictly sorted listing. */
  lemma {:induction false} SortedListingUnique(a: seq<string>, b: seq<string>)
    requires StrictlySorted(a) && StrictlySorted(b) && Elems(a) == Elems(b)
    ensures a == b
  {
    if a == [] || b == [] {
      EmptyElems(a);
      EmptyElems(b);
    } else {
      assert b[0] in Elems(a) && a[0] in Elems(b);
      if a[0] != b[0] {
        SortedHeadLeast(a, b[0]);
        SortedHeadLeast(b, a[0]);
        LessAsymmetric(a[0], b[0]);
      }
      SortedTail(a);
      SortedTail(b);
      SortedListingUnique(a[1..], b[1..]);
      assert a == [a[0]] + a[1..] && b == [b[0]] + b[1..];
    }
  }

  /** Sorts a set of strings by inserting its elements one at a time. */
  method SortSet(phones: set<string>) returns (sorted: seq<string>)
    ensures StrictlySorted(sorted) && Elems(sorted) == phones
  {
    sorted := [];
    var rest := phones;
    while rest != {}
      invariant StrictlySorted(sorted)
      invariant Elems(sorted) + rest == phones
      decreases rest
    {
      var x :| x in rest;
      InsertSortedCorrect(sorted, x);
      sorted := InsertSorted(sorted, x);
      rest := rest - {x};
    }
  }

  /** The phones one field adds, as the loop body of the source adds them. */
  lemma FieldPhonesElems(key: string, v: Value, findall: string -> seq<string>)
    ensures Elems(FieldPhones(key, v, findall)) ==
              (if !IsPhoneKey(key) then {}
               else match v
                 case List(l) => set x | x in l && x != ""
                 case Str(s) => if s != "" then {s} else {})
              + (if v.Str? && |v.s| >= 10 then Elems(findall(v.s)) else {})
  {
    var named: seq<string> :=
      if !IsPhoneKey(key) then []
      else match v
        case List(l) => NonEmpty(l)
        case Str(s) => if s != "" then [s] else [];
    var matched := if v.Str? && |v.s| >= 10 then findall(v.s) else [];
    assert FieldPhones(key, v, findall) == named + matched;
    ElemsAppend(named, matched);
    if v.List? {
      NonEmptyElems(v.items);
    }
  }

  /** The phones of one more field of a record. */
  lemma RecordPhonesSnoc(item: Record, j: int, findall: string -> seq<string>)
    requires 0 <= j < |item|
    ensures Elems(RecordPhones(item[..j + 1], findall)) ==
              Elems(RecordPhones(item[..j], findall)) + Elems(FieldPhones(item[j].0, item[j].1, findall))
  {
    assert item[..j + 1][..j] == item[..j];
    ElemsAppend(RecordPhones(item[..j], findall), FieldPhones(item[j].0, item[j].1, findall));
  }

  /** The inner loop of `extract_phones_from_result`: adds what each field
      of one record contributes. */
  method AddRecordPhones(phones: set<string>, item: Record, findall: string -> seq<string>)
    returns (result: set<string>)
    ensures result == phones + Elems(RecordPhones(item, findall))
  {
    result := phones;
    var j := 0;
    while j < |item|
      invariant 0 <= j <= |item|
      invariant result == phones + Elems(RecordPhones(item[..j], findall))
    {
      var (key, value) := item[j];
      if IsPhoneKey(key) {
        match value
        case List(l) =>
          result := result + set v | v in l && v != "";
        case Str(s) =>
          if s != "" {
            result := result + {s};
          }
      }
      if value.Str? && |value.s| >= 10 {
        result := result + Elems(findall(value.s));
      }
      FieldPhonesElems(key, value, findall);
      RecordPhonesSnoc(item, j, findall);
      j := j + 1;
    }
    assert item[..j] == item;
  }

  /** `extract_phones_from_result`: fills a set record by record, then joins
      its sorted elements with ", ". */
  method ExtractPhones(resp: Response, findall: string -> seq<string>) returns (r: string)
    ensures r == PhonesText(resp, findall)
  {
    if !resp.status || resp.counts == 0 {
      return "";
    }
    var phones: set<string> := {};
    var i := 0;
    while i < |resp.data|
      invariant 0 <= i <= |resp.data|
      invariant phones == Elems(DataPhones(resp.data[..i], findall))
    {
      phones := AddRecordPhones(phones, resp.data[i], findall);
      assert resp.data[..i + 1] == resp.data[..i] + [resp.data[i]];
      ElemsAppend(DataPhones(resp.data[..i], findall), RecordPhones(resp.data[i], findall));
      i := i + 1;
    }
    assert resp.data[..i] == resp.data;
    var sorted := SortSet(phones);
    ghost var gathered := DataPhones(resp.data, findall);
    SortDedupCorrect(gathered);
    SortedListingUnique(sorted, SortDedup(gathered));
    EmptyElems(sorted);
    r := if phones == {} then "" else Join(sorted, ", ");
  }

  /** The result lists its phones once each, in sorted order, and they are
      exactly the phones gathered from the records. */
  lemma PhonesTextSorted(resp: Response, findall: string -> seq<string>)
    requires resp.status && resp.counts != 0
    ensures exists l :: PhonesText(resp, findall) == Join(l, ", ")
                     && StrictlySorted(l) && Elems(l) == Elems(DataPhones(resp.data, findall))
  {
    SortDedupCorrect(DataPhones(resp.data, findall));
  }

  /** A record's phone-named field contributes each of its non-empty values. */
  lemma {:induction false} PhoneFieldInRecord(r: Record, j: int, findall: string -> seq<string>)
    requires 0 <= j < |r| && IsPhoneKey(r[j].0)
    ensures r[j].1.Str? && r[j].1.s != "" ==> r[j].1.s in Elems(RecordPhones(r, findall))
    ensures r[j].1.List? ==> forall x :: x in r[j].1.items && x != "" ==> x in Elems(RecordPhones(r, findall))
  {
    var init, last := r[..|r| - 1], r[|r| - 1];
    ElemsAppend(RecordPhones(init, findall), FieldPhones(last.0, last.1, findall));
    if j < |r| - 1 {
      PhoneFieldInRecord(init, j, findall);
    } else {
      FieldPhonesElems(last.0, last.1, findall);
    }
  }

  lemma {:induction false} RecordInData(data: seq<Record>, i: int, findall: string -> seq<string>)
    requires 0 <= i < |data|
    ensures Elems(RecordPhones(data[i], findall)) <= Elems(DataPhones(data, findall))
  {
    ElemsAppend(DataPhones(data[..|data| - 1], findall), RecordPhones(data[|data| - 1], findall));
    if i < |data| - 1 {
      RecordInData(data[..|data| - 1], i, findall);
    }
  }

  /** Every non-empty value of a phone-named field, or non-empty element of
      such a list, is among the extracted phones. */
  lemma PhoneFieldsExtracted(data: seq<Record>, i: int, j: int, x: string, findall: string -> seq<string>)
    requires 0 <= i < |data| && 0 <= j < |data[i]| && IsPhoneKey(data[i][j].0) && x != ""
    requires data[i][j].1 == Str(x) || (data[i][j].1.List? && x in data[i][j].1.items)
    ensures x in Elems(DataPhones(data, findall))
  {
    PhoneFieldInRecord(data[i], j, findall);
    RecordInData(data, i, findall);
  }

  /** Nothing else is extracted: each phone comes from a phone-named field or
      from a pattern match in a long enough string value. */
  lemma {:induction false} ExtractedPhonesOrigin(data: seq<Record>, x: string, findall: string -> seq<string>)
    requires x in Elems(DataPhones(data, findall))
    ensures exists i, j :: 0 <= i < |data| && 0 <= j < |data[i]| &&
              ((IsPhoneKey(data[i][j].0) && x != "" && (data[i][j].1 == Str(x) || (data[i][j].1.List? && x in data[i][j].1.items)))
               || (data[i][j].1.Str? && |data[i][j].1.s| >= 10 && x in findall(data[i][j].1.s)))
  {
    var init := data[..|data| - 1];
    var last := data[|data| - 1];
    ElemsAppend(DataPhones(init, findall), RecordPhones(last, findall));
    if x in Elems(DataPhones(init, findall)) {
      ExtractedPhonesOrigin(init, x, findall);
      var i, j :| 0 <= i < |init| && 0 <= j < |init[i]| &&
              ((IsPhoneKey(init[i][j].0) && x != "" && (init[i][j].1 == Str(x) || (init[i][j].1.List? && x in init[i][j].1.items)))
               || (init[i][j].1.Str? && |init[i][j].1.s| >= 10 && x in findall(init[i][j].1.s)));
      assert data[i] == init[i];
    } else {
      var j := RecordOrigin(last, x, findall);
      assert data[|data| - 1] == last;
    }
  }

  lemma {:induction false} RecordOrigin(r: Record, x: string, findall: string -> seq<string>) returns (j: int)
    requires x in Elems(RecordPhones(r, findall))
    ensures 0 <= j < |r|
    ensures (IsPhoneKey(r[j].0) && x != "" && (r[j].1 == Str(x) || (r[j].1.List? && x in r[j].1.items)))
            || (r[j].1.Str? && |r[j].1.s| >= 10 && x in findall(r[j].1.s))
  {
    var init := r[..|r| - 1];
    ElemsAppend(RecordPhones(init, findall), FieldPhones(r[|r| - 1].0, r[|r| - 1].1, findall));
    if x in Elems(RecordPhones(init, findall)) {
      j := RecordOrigin(init, x, findall);
      assert r[j] == init[j];
    } else {
      j := |r| - 1;
      var (key, v) := r[j];
      FieldPhonesElems(key, v, findall);
      if v.Str? && |v.s| >= 10 && x in Elems(findall(v.s)) {
      } else if v.List? {
        assert IsPhoneKey(key) && x in v.items && x != "";
      } else {
        assert IsPhoneKey(key) && x == v.s && x != "";
      }
    }
  }

  // -----------------------------------------------------------------------
  // format_full_result

  /** Python's `dict.pop(key, default)` split in two: the value (the first
      entry under `key`) and the fields that remain. */
  function PopValue(fields: Record, key: string): Option<Value>
  {
    if fields == [] then None
    else if fields[0].0 == key then Some(fields[0].1)
    else PopValue(fields[1..], key)
  }

  /** On a record with unique keys, `pop` takes out exactly the one field
      whose value it returns, and removes nothing when the key is absent. */
  lemma {:induction false} PopTakesOneField(fields: Record, key: string) returns (i: int)
    requires KeysUnique(fields)
    ensures PopValue(fields, key).None? ==> Without(fields, key) == fields
    ensures PopValue(fields, key).Some? ==>
              && 0 <= i < |fields| && fields[i] == (key, PopValue(fields, key).value)
              && Without(fields, key) == fields[..i] + fields[i + 1..]
  {
    i := 0;
    if PopValue(fields, key).None? {
      PopNoneAbsent(fields, key);
      WithoutAbsent(fields, key);
      return;
    }
    var t := fields[1..];
    WithoutCons(fields, key);
    if fields[0].0 == key {
      PopAtHead(fields, key);
      assert fields[..0] + fields[1..] == t;
    } else {
      assert KeysUnique(t);
      var k := PopTakesOneField(t, key);
      i := k + 1;
      KeepHead(fields, k, Without(t, key));
    }
  }

  /** With unique keys, a key held by the first field is held by no other. */
  lemma PopAtHead(fields: Record, key: string)
    requires KeysUnique(fields) && fields != [] && fields[0].0 == key
    ensures Without(fields, key) == fields[1..]
  {
    var t := fields[1..];
    assert forall j :: 0 <= j < |t| ==> t[j].0 == fields[j + 1].0;
    WithoutAbsent(t, key);
    WithoutCons(fields, key);
  }

  /** When `pop` finds nothing, no field has the key. */
  lemma {:induction false} PopNoneAbsent(fields: Record, key: string)
    requires PopValue(fields, key).None?
    ensures forall k :: 0 <= k < |fields| ==> fields[k].0 != key
  {
    if fields != [] {
      PopNoneAbsent(fields[1..], key);
      assert forall k :: 1 <= k < |fields| ==> fields[k] == fields[1..][k - 1];
    }
  }

  /** Keeping the head in front of the tail with its `k`-th field removed
      removes the `k + 1`-th field of the whole. */
  lemma KeepHead(fields: Record, k: int, rest: Record)
    requires 0 <= k < |fields| - 1 && rest == fields[1..][..k] + fields[1..][k + 1..]
    ensures [fields[0]] + rest == fields[..k + 1] + fields[k + 2..]
  {
    var t := fields[1..];
    AppendAssoc([fields[0]], t[..k], t[k + 1..]);
    assert [fields[0]] + t[..k] == fields[..k + 1];
    assert t[k + 1..] == fields[k + 2..];
  }

  /** `Without` one field at a time. */
  lemma WithoutCons(fields: Record, key: string)
    requires fields != []
    ensures Without(fields, key) ==
              (if fields[0].0 == key then [] else [fields[0]]) + Without(fields[1..], key)
  {
  }

  /** Removing a key the record does not have changes nothing. */
  lemma {:induction false} WithoutAbsent(fields: Record, key: string)
    requires forall k :: 0 <= k < |fields| ==> fields[k].0 != key
    ensures Without(fields, key) == fields
  {
    if fields != [] {
      WithoutAbsent(fields[1..], key);
      WithoutCons(fields, key);
      assert [fields[0]] + fields[1..] == fields;
    }
  }

  function Without(fields: Record, key: string): (r: Record)
    ensures forall k :: 0 <= k < |r| ==> r[k].0 != key
    ensures forall f :: f in fields && f.0 != key ==> f in r
    ensures forall f :: f in r ==> f in fields
  {
    if fields == [] then []
    else (if fields[0].0 == key then [] else [fields[0]]) + Without(fields[1..], key)
  }

  /** The value after "База: ": a string as it is, a list as Python prints
      one, the default when the record has no table name. */
  function TableLabel(v: Option<Value>): string
  {
    match v
    case None => UNKNOWN_TABLE
    case Some(Str(s)) => s
    case Some(List(l)) => "[" + Join(Quoted(l), ", ") + "]"
  }

  function Quoted(l: seq<string>): seq<string>
  {
    if l == [] then [] else ["'" + l[0] + "'"] + Quoted(l[1..])
  }

  function ListPreview(l: seq<string>): string
  {
    if |l| > 3 then Join(l[..3], ", ") + " и ещё " + NatToString(|l| - 3) else Join(l, ", ")
  }

  /** "key: value" for a non-empty field; nothing for an empty one. */
  function FieldText(key: string, v: Value): Option<string>
  {
    match v
    case Str(s) => if s != "" then Some(key + ": " + s) else None
    case List(l) => if |l| > 0 then Some(key + ": " + ListPreview(l)) else None
  }

  function FieldTexts(fields: Record): seq<string>
  {
    if fields == [] then []
    else
      var last := FieldText(fields[|fields| - 1].0, fields[|fields| - 1].1);
      FieldTexts(fields[..|fields| - 1]) + if last.Some? then [last.value] else []
  }

  function RecordText(fields: Record): string
  {
    Join(["База: " + TableLabel(PopValue(fields, TABLE_NAME))] + FieldTexts(Without(fields, TABLE_NAME)), " | ")
  }

  function RecordTexts(data: seq<Record>): (r: seq<string>)
  {
    seq(|data|, k requires 0 <= k < |data| => RecordText(data[k]))
  }

  /** Whether `format_full_result` gets past its two early returns. */
  predicate Renders(status: bool, counts: int) { status && counts != 0 }

  /** What `format_full_result` returns. */
  function FullText(resp: Response): string
  {
    if !resp.status then "ошибка: " + (if resp.message.Some? then resp.message.value else UNKNOWN_ERROR)
    else if resp.counts == 0 then ""
    else Join(RecordTexts(resp.data), " || ")
  }

  /** A record of the reply as the Python dict it is decoded into. */
  class Item {
    var fields: Record

    constructor (fields: Record)
      ensures this.fields == fields
    {
      this.fields := fields;
    }
  }

  function FieldsOf(items: seq<Item>): (r: seq<Record>)
    reads set it | it in items
    ensures |r| == |items|
    ensures forall k :: 0 <= k < |items| ==> r[k] == items[k].fields
  {
    if items == [] then [] else FieldsOf(items[..|items| - 1]) + [items[|items| - 1].fields]
  }

  /** The body of the record loop of `format_full_result`: pops the table
      name from the record, then renders it. */
  method RenderItem(item: Item) returns (text: string)
    modifies item
    ensures text == RecordText(old(item.fields))
    ensures item.fields == Without(old(item.fields), TABLE_NAME)
  {
    var tableName := PopValue(item.fields, TABLE_NAME);
    item.fields := Without(item.fields, TABLE_NAME);
    var itemParts := ["База: " + TableLabel(tableName)];
    var rest := item.fields;
    var f := 0;
    while f < |rest|
      invariant 0 <= f <= |rest|
      invariant itemParts == ["База: " + TableLabel(tableName)] + FieldTexts(rest[..f])
    {
      var t := FieldText(rest[f].0, rest[f].1);
      if t.Some? {
        itemParts := itemParts + [t.value];
      }
      assert rest[..f + 1][..f] == rest[..f];
      f := f + 1;
    }
    assert rest[..f] == rest;
    text := Join(itemParts, " | ");
  }

  /** The record loop of `format_full_result`: renders every record, popping
      its table name in place. */
  method RenderItems(items: seq<Item>) returns (parts: seq<string>)
    requires forall i, j :: 0 <= i < j < |items| ==> items[i] != items[j]
    modifies set it | it in items
    ensures parts == RecordTexts(old(FieldsOf(items)))
    ensures forall k :: 0 <= k < |items| ==> items[k].fields == Without(old(items[k].fields), TABLE_NAME)
  {
    ghost var data := FieldsOf(items);
    ghost var texts := RecordTexts(data);
    parts := [];
    var k := 0;
    while k < |items|
      invariant 0 <= k <= |items|
      invariant parts == texts[..k]
      invariant forall j :: 0 <= j < k ==> items[j].fields == Without(data[j], TABLE_NAME)
      invariant forall j :: k <= j < |items| ==> items[j].fields == data[j]
    {
      assert texts[k] == RecordText(data[k]);
      label Before:
      var text := RenderItem(items[k]);
      forall j | 0 <= j < |items| && j != k ensures items[j].fields == old@Before(items[j].fields) {
        assert items[j] != items[k];
      }
      parts := parts + [text];
      SliceSnoc(texts, k);
      k := k + 1;
    }
    assert parts == texts;
  }

  /** `format_full_result`. Rendering each record pops its `table_name` in
      place, so afterwards no record holds one. */
  method FormatFullResult(status: bool, message: Option<string>, counts: int, items: seq<Item>) returns (r: string)
    requires forall i, j :: 0 <= i < j < |items| ==> items[i] != items[j]
    modifies set it | it in items
    ensures r == FullText(Response(status, message, counts, old(FieldsOf(items))))
    ensures Renders(status, counts) ==>
              forall k :: 0 <= k < |items| ==> items[k].fields == Without(old(items[k].fields), TABLE_NAME)
    ensures !Renders(status, counts) ==> forall k :: 0 <= k < |items| ==> items[k].fields == old(items[k].fields)
  {
    if !status {
      return "ошибка: " + (if message.Some? then message.value else UNKNOWN_ERROR);
    }
    if counts == 0 {
      return "";
    }
    var parts := RenderItems(items);
    r := Join(parts, " || ");
  }

  /** Values past the third never show: two lists of the same length that
      agree on their first three values read the same. */
  lemma ListPreviewIgnoresTail(l1: seq<string>, l2: seq<string>)
    requires |l1| == |l2| > 3 && l1[..3] == l2[..3]
    ensures ListPreview(l1) == ListPreview(l2)
  {
  }

  /** The count of hidden values is told exactly: two long lists that
      agree on their first three values read the same only when they are
      equally long. */
  lemma ListPreviewTellsLength(l1: seq<string>, l2: seq<string>)
    requires |l1| > 3 && |l2| > 3 && l1[..3] == l2[..3]
    requires ListPreview(l1) == ListPreview(l2)
    ensures |l1| == |l2|
  {
    var head := Join(l1[..3], ", ") + " и ещё ";
    DropPrefix(head, NatToString(|l1| - 3));
    DropPrefix(head, NatToString(|l2| - 3));
    NatToStringInjective(|l1| - 3, |l2| - 3);
  }
}
