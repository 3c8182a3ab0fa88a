/** The byte stream behind a payload checksum: compact JSON with sorted keys, one payload a line. */
module PayloadChecksum {
  import opened Ordering

  /** A JSON value; an object is its fields in key order, which is how sorted-key output sees a dict. */
  datatype Json =
    | JNull | JBool(b: bool) | JInt(n: int) | JString(s: string)
    | JArray(items: seq<Json>) | JObject(fields: seq<Field>)
  datatype Field = Field(name: string, value: Json)

  // ---- encoding ----

  function Hex(d: int): char
    requires 0 <= d < 16
  {
    if d < 10 then (48 + d) as char else (87 + d) as char
  }

  /** Quotes, backslashes and control characters are escaped; every other character stands for itself. */
  function Escape(c: char): string {
    if c == '"' then "\\\"" else if c == '\\' then "\\\\"
    else if c == '\n' then "\\n" else if c == '\r' then "\\r" else if c == '\t' then "\\t"
    else if c as int == 8 then "\\b" else if c as int == 12 then "\\f"
    else if c as int < 32 then "\\u00" + [Hex(c as int / 16), Hex(c as int % 16)]
    else [c]
  }

  function EscapeAll(s: string): string {
    if s == [] then [] else Escape(s[0]) + EscapeAll(s[1..])
  }

  function Quoted(s: string): string {
    "\"" + EscapeAll(s) + "\""
  }

  function Digits(n: nat): string {
    if n < 10 then [Hex(n)] else Digits(n / 10) + [Hex(n % 10)]
  }

  function Encode(j: Json): string
    decreases j, 0
  {
    match j
    case JNull => "null"
    case JBool(b) => if b then "true" else "false"
    case JInt(n) => if n < 0 then "-" + Digits(-n) else Digits(n)
    case JString(s) => Quoted(s)
    case JArray(items) => "[" + EncodeItems(items)
    case JObject(fields) => "{" + EncodeFields(fields)
  }

  /** The items from the first on, with the closing bracket. A leading comma separates an item from the one before. */
  function EncodeItems(items: seq<Json>): string
    decreases items, 1
  {
    if items == [] then "]"
    else Encode(items[0]) + (if |items| > 1 then "," else []) + EncodeItems(items[1..])
  }

  function EncodeFields(fields: seq<Field>): string
    decreases fields, 1
  {
    if fields == [] then "}"
    else Quoted(fields[0].name) + ":" + Encode(fields[0].value)
         + (if |fields| > 1 then "," else []) + EncodeFields(fields[1..])
  }

  // ---- what follows an encoding cannot be mistaken for part of it ----

  predicate IsDigit(c: char) { 48 <= c as int <= 57 }

  /** What may come after a value: nothing, a separator, a closing bracket, or the end of the line. */
  predicate Delimited(s: string) {
    s == [] || s[0] in {',', ']', '}', '\n'}
  }

  lemma EscapeUnique(a: char, x: string, b: char, y: string)
    requires Escape(a) + x == Escape(b) + y
    ensures a == b && x == y
  {
    var p, q := Escape(a), Escape(b);
    assert (p + x)[0] == p[0] && (q + y)[0] == q[0];
    if p[0] == '\\' {
      assert (p + x)[1] == p[1] && (q + y)[1] == q[1];
      if p[1] == 'u' {
        assert (p + x)[4] == p[4] && (q + y)[4] == q[4];
        assert (p + x)[5] == p[5] && (q + y)[5] == q[5];
      }
    }
    assert a == b;
    assert (p + x)[|p|..] == x && (q + y)[|q|..] == y;
  }

  lemma TextStart(u: string, s: string)
    requires u != []
    ensures EscapeAll(u) + "\"" + s == Escape(u[0]) + (EscapeAll(u[1..]) + "\"" + s)
    ensures (EscapeAll(u) + "\"" + s)[0] != '"'
  {
  }

  lemma TextEnd(s: string)
    ensures (EscapeAll([]) + "\"" + s)[0] == '"' && (EscapeAll([]) + "\"" + s)[1..] == s
  {
  }

  lemma {:induction false} TextUnique(u: string, s: string, v: string, t: string)
    requires EscapeAll(u) + "\"" + s == EscapeAll(v) + "\"" + t
    ensures u == v && s == t
    decreases |u|
  {
    hide Escape;
    if u == [] {
      TextEnd(s);
    } else {
      TextStart(u, s);
    }
    if v == [] {
      TextEnd(t);
    } else {
      TextStart(v, t);
    }
    if u != [] && v != [] {
      EscapeUnique(u[0], EscapeAll(u[1..]) + "\"" + s, v[0], EscapeAll(v[1..]) + "\"" + t);
      TextUnique(u[1..], s, v[1..], t);
      assert u == [u[0]] + u[1..] && v == [v[0]] + v[1..];
    }
  }

  lemma QuotedUnique(u: string, s: string, v: string, t: string)
    requires Quoted(u) + s == Quoted(v) + t
    ensures u == v && s == t
  {
    var p, q := EscapeAll(u) + "\"" + s, EscapeAll(v) + "\"" + t;
    assert Quoted(u) + s == "\"" + p && Quoted(v) + t == "\"" + q;
    assert ("\"" + p)[1..] == p && ("\"" + q)[1..] == q;
    TextUnique(u, s, v, t);
  }

  lemma {:induction false} DigitsAreDigits(n: nat)
    ensures |Digits(n)| >= 1 && forall i :: 0 <= i < |Digits(n)| ==> IsDigit(Digits(n)[i])
    ensures |Digits(n)| == 1 <==> n < 10
  {
    if n >= 10 {
      DigitsAreDigits(n / 10);
    }
  }

  lemma {:induction false} DigitsInjective(n: nat, m: nat)
    requires Digits(n) == Digits(m)
    ensures n == m
    decreases n
  {
    DigitsAreDigits(n);
    DigitsAreDigits(m);
    if n >= 10 {
      var p, q := Digits(n / 10), Digits(m / 10);
      assert Digits(n)[|p|] == Hex(n % 10) && Digits(m)[|q|] == Hex(m % 10);
      assert Digits(n)[..|p|] == p && Digits(m)[..|q|] == q;
      DigitsInjective(n / 10, m / 10);
    }
  }

  /** How many digits a string begins with. */
  function DigitRun(s: string): nat {
    if s == [] || !IsDigit(s[0]) then 0 else 1 + DigitRun(s[1..])
  }

  lemma {:induction false} DigitRunEnds(p: string, s: string)
    requires (forall i :: 0 <= i < |p| ==> IsDigit(p[i])) && Delimited(s)
    ensures DigitRun(p + s) == |p|
  {
    if p == [] {
      assert p + s == s;
    } else {
      DigitRunEnds(p[1..], s);
      assert (p + s)[1..] == p[1..] + s;
    }
  }

  lemma DigitsUnique(n: nat, s: string, m: nat, t: string)
    requires Digits(n) + s == Digits(m) + t && Delimited(s) && Delimited(t)
    ensures n == m && s == t
  {
    DigitsAreDigits(n);
    DigitsAreDigits(m);
    var p, q := Digits(n), Digits(m);
    DigitRunEnds(p, s);
    DigitRunEnds(q, t);
    assert (p + s)[..|p|] == p && (q + t)[..|q|] == q;
    assert (p + s)[|p|..] == s && (q + t)[|q|..] == t;
    DigitsInjective(n, m);
  }

  function FirstChar(j: Json): char {
    match j
    case JNull => 'n'
    case JBool(b) => if b then 't' else 'f'
    case JInt(n) => if n < 0 then '-' else Digits(n)[0]
    case JString(_) => '"'
    case JArray(_) => '['
    case JObject(_) => '{'
  }

  lemma EncodeStart(j: Json)
    ensures |Encode(j)| >= 1 && Encode(j)[0] == FirstChar(j)
    ensures FirstChar(j) !in {',', ']', '}', '\n'}
    ensures j.JInt? ==> (FirstChar(j) == '-' <==> j.n < 0)
    ensures j.JInt? && j.n >= 0 ==> IsDigit(FirstChar(j))
  {
    if j.JInt? {
      DigitsAreDigits(if j.n < 0 then -j.n else j.n);
    }
  }

  lemma SameShape(x: Json, y: Json)
    requires FirstChar(x) == FirstChar(y)
    ensures x.JNull? == y.JNull? && x.JBool? == y.JBool? && x.JInt? == y.JInt?
    ensures x.JString? == y.JString? && x.JArray? == y.JArray? && x.JObject? == y.JObject?
    ensures x.JBool? ==> x == y
    ensures x.JInt? ==> (x.n < 0 <==> y.n < 0)
  {
    EncodeStart(x);
    EncodeStart(y);
    assert x.JInt? ==> FirstChar(x) == '-' || IsDigit(FirstChar(x));
    assert y.JInt? ==> FirstChar(y) == '-' || IsDigit(FirstChar(y));
  }

  /** No value is encoded as the beginning of another: what is read back is what was written. */
  lemma {:induction false} EncodeUnique(x: Json, s: string, y: Json, t: string)
    requires Encode(x) + s == Encode(y) + t && Delimited(s) && Delimited(t)
    ensures x == y && s == t
    decreases x, 0
  {
    hide Escape, EscapeAll, Quoted, Digits, FirstChar, EncodeItems, EncodeFields;
    EncodeStart(x);
    EncodeStart(y);
    var p, q := Encode(x), Encode(y);
    assert (p + s)[0] == p[0] && (q + t)[0] == q[0];
    SameShape(x, y);
    match x
    case JNull =>
      assert (p + s)[4..] == s && (q + t)[4..] == t;
    case JBool(b) =>
      assert (p + s)[|p|..] == s && (q + t)[|q|..] == t;
    case JInt(n) =>
      if n < 0 {
        DropFirst("-", Digits(-n), s);
        DropFirst("-", Digits(-y.n), t);
        DigitsUnique(-n, s, -y.n, t);
      } else {
        DigitsUnique(n, s, y.n, t);
      }
    case JString(u) =>
      QuotedUnique(u, s, y.s, t);
    case JArray(items) =>
      DropFirst("[", EncodeItems(items), s);
      DropFirst("[", EncodeItems(y.items), t);
      ItemsUnique(items, s, y.items, t);
    case JObject(fields) =>
      DropFirst("{", EncodeFields(fields), s);
      DropFirst("{", EncodeFields(y.fields), t);
      FieldsUnique(fields, s, y.fields, t);
  }

  lemma DropFirst(first: string, body: string, s: string)
    requires |first| == 1
    ensures ((first + body) + s)[1..] == body + s
  {
  }

  /** What comes after the first of several items. */
  function AfterItem(more: bool, rest: string, s: string): string {
    (if more then "," else []) + rest + s
  }

  lemma AfterItemUnique(a: bool, x: string, s: string, b: bool, y: string, t: string)
    requires AfterItem(a, x, s) == AfterItem(b, y, t) && x != [] && y != []
    requires (!a ==> x[0] != ',') && (!b ==> y[0] != ',')
    ensures a == b && x + s == y + t
  {
    var p, q := AfterItem(a, x, s), AfterItem(b, y, t);
    assert p[0] == if a then ',' else x[0];
    assert q[0] == if b then ',' else y[0];
    assert a ==> p[1..] == x + s;
    assert b ==> q[1..] == y + t;
    assert !a ==> p == x + s;
    assert !b ==> q == y + t;
  }

  lemma ItemsStart(items: seq<Json>, fields: seq<Field>)
    ensures EncodeItems(items) != [] && (items == [] ==> EncodeItems(items)[0] == ']')
    ensures EncodeFields(fields) != [] && (fields == [] ==> EncodeFields(fields)[0] == '}')
    ensures items != [] ==> EncodeItems(items)[0] != ']'
    ensures fields != [] ==> EncodeFields(fields)[0] == '"'
  {
    if items != [] {
      EncodeStart(items[0]);
    }
  }

  lemma {:induction false} ItemsUnique(a: seq<Json>, s: string, b: seq<Json>, t: string)
    requires EncodeItems(a) + s == EncodeItems(b) + t
    ensures a == b && s == t
    decreases a, 1
  {
    hide Escape, EscapeAll, Quoted, Digits, Encode;
    ItemsStart(a, []);
    ItemsStart(b, []);
    var p, q := EncodeItems(a) + s, EncodeItems(b) + t;
    assert p[0] == EncodeItems(a)[0] && q[0] == EncodeItems(b)[0];
    if a == [] || b == [] {
      assert p[1..] == s && q[1..] == t;
    } else {
      ItemsStart(a[1..], []);
      ItemsStart(b[1..], []);
      var x, y := AfterItem(|a| > 1, EncodeItems(a[1..]), s), AfterItem(|b| > 1, EncodeItems(b[1..]), t);
      assert p == Encode(a[0]) + x && q == Encode(b[0]) + y;
      EncodeUnique(a[0], x, b[0], y);
      AfterItemUnique(|a| > 1, EncodeItems(a[1..]), s, |b| > 1, EncodeItems(b[1..]), t);
      ItemsUnique(a[1..], s, b[1..], t);
      assert a == [a[0]] + a[1..] && b == [b[0]] + b[1..];
    }
  }

  lemma {:induction false} FieldsUnique(a: seq<Field>, s: string, b: seq<Field>, t: string)
    requires EncodeFields(a) + s == EncodeFields(b) + t
    ensures a == b && s == t
    decreases a, 1
  {
    hide Escape, EscapeAll, Quoted, Digits, Encode;
    ItemsStart([], a);
    ItemsStart([], b);
    var p, q := EncodeFields(a) + s, EncodeFields(b) + t;
    assert p[0] == EncodeFields(a)[0] && q[0] == EncodeFields(b)[0];
    if a == [] || b == [] {
      assert p[1..] == s && q[1..] == t;
    } else {
      ItemsStart([], a[1..]);
      ItemsStart([], b[1..]);
      var x, y := AfterItem(|a| > 1, EncodeFields(a[1..]), s), AfterItem(|b| > 1, EncodeFields(b[1..]), t);
      var v, w := Encode(a[0].value) + x, Encode(b[0].value) + y;
      FieldParts(a, s);
      FieldParts(b, t);
      QuotedUnique(a[0].name, ":" + v, b[0].name, ":" + w);
      assert (":" + v)[1..] == v && (":" + w)[1..] == w;
      EncodeUnique(a[0].value, x, b[0].value, y);
      AfterItemUnique(|a| > 1, EncodeFields(a[1..]), s, |b| > 1, EncodeFields(b[1..]), t);
      FieldsUnique(a[1..], s, b[1..], t);
      assert a == [a[0]] + a[1..] && b == [b[0]] + b[1..];
    }
  }

  lemma FieldParts(a: seq<Field>, s: string)
    requires a != []
    ensures EncodeFields(a) + s
         == Quoted(a[0].name) + (":" + (Encode(a[0].value) + AfterItem(|a| > 1, EncodeFields(a[1..]), s)))
  {
    hide Escape, Quoted, Encode;
    Regroup(Quoted(a[0].name), ":", Encode(a[0].value), if |a| > 1 then "," else [], EncodeFields(a[1..]), s);
  }

  lemma Regroup(a: string, b: string, c: string, d: string, e: string, f: string)
    ensures (a + b + c + d + e) + f == a + (b + (c + (d + e + f)))
  {
  }

  // ---- the checksum ----

  function Lookup(fields: seq<Field>, name: string): seq<Json> {
    if fields == [] then []
    else if fields[0].name == name then [fields[0].value]
    else Lookup(fields[1..], name)
  }

  /** The key payloads are sorted by. It is a string in every payload the script builds. */
  function EntityKey(p: Json): string {
    if !p.JObject? then []
    else
      var found := Lookup(p.fields, "entity_key");
      if found == [] then [] else if found[0].JString? then found[0].s else Encode(found[0])
  }

  ghost predicate SortedByKey(ps: seq<Json>) {
    forall i, j :: 0 <= i < j < |ps| ==> NameLeq(EntityKey(ps[i]), EntityKey(ps[j]))
  }

  ghost predicate DistinctKeys(ps: seq<Json>) {
    forall i, j :: 0 <= i < j < |ps| ==> EntityKey(ps[i]) != EntityKey(ps[j])
  }

  /** What the digest is fed: every payload on a line of its own. */
  function Lines(ps: seq<Json>): string {
    if ps == [] then [] else Encode(ps[0]) + "\n" + Lines(ps[1..])
  }

  method SortByKey(ps: seq<Json>) returns (r: seq<Json>)
    ensures multiset(r) == multiset(ps) && SortedByKey(r)
  {
    hide EntityKey, NameLeq;
    r := [];
    for i := 0 to |ps|
      invariant multiset(r) == multiset(ps[..i]) && SortedByKey(r)
    {
      var p := |r|;
      while p > 0 && !NameLeq(EntityKey(r[p - 1]), EntityKey(ps[i]))
        invariant 0 <= p <= |r|
        invariant forall k :: p <= k < |r| ==> !NameLeq(EntityKey(r[k]), EntityKey(ps[i]))
      {
        p := p - 1;
      }
      InsertSorted(r, p, ps[i]);
      assert ps[..i + 1] == ps[..i] + [ps[i]];
      assert r == r[..p] + r[p..];
      r := r[..p] + [ps[i]] + r[p..];
    }
    assert ps[..|ps|] == ps;
  }

  lemma InsertSorted(r: seq<Json>, p: nat, x: Json)
    requires SortedByKey(r) && p <= |r|
    requires p > 0 ==> NameLeq(EntityKey(r[p - 1]), EntityKey(x))
    requires forall k :: p <= k < |r| ==> !NameLeq(EntityKey(r[k]), EntityKey(x))
    ensures SortedByKey(r[..p] + [x] + r[p..])
  {
    hide NameLeq, EntityKey;
    NameLeqIsTotal();
    var q := r[..p] + [x] + r[p..];
    forall i, j | 0 <= i < j < |q| ensures NameLeq(EntityKey(q[i]), EntityKey(q[j])) {
      if i < p && j == p {
        assert q[i] == r[i] && (i == p - 1 || NameLeq(EntityKey(r[i]), EntityKey(r[p - 1])));
      } else if i == p && j > p {
        assert q[j] == r[j - 1];
      } else {
        assert q[i] == r[if i < p then i else i - 1] && q[j] == r[if j < p then j else j - 1];
      }
    }
  }

  /** A stream the digest may be fed for these payloads: sorted by entity key, one line each. */
  ghost predicate StreamOf(ps: seq<Json>, stream: string) {
    exists sorted :: multiset(sorted) == multiset(ps) && SortedByKey(sorted) && stream == Lines(sorted)
  }

  /** The loop over the sorted payloads; the digest of `stream` is the checksum. */
  method ChecksumStream(ps: seq<Json>) returns (stream: string)
    ensures StreamOf(ps, stream)
  {
    var order := SortByKey(ps);
    stream := [];
    var k := 0;
    while k < |order|
      invariant k <= |order| && stream + Lines(order[k..]) == Lines(order)
    {
      assert order[k..][0] == order[k] && order[k..][1..] == order[k + 1..];
      assert stream + (Encode(order[k]) + "\n" + Lines(order[k + 1..]))
          == (stream + Encode(order[k]) + "\n") + Lines(order[k + 1..]);
      stream := stream + Encode(order[k]);
      stream := stream + "\n";
      k := k + 1;
    }
  }

  /** Lines decode uniquely: equal streams come from equal sequences of payloads. */
  lemma {:induction false} LinesInjective(a: seq<Json>, b: seq<Json>)
    requires Lines(a) == Lines(b)
    ensures a == b
  {
    if a != [] && b != [] {
      LineParts(a);
      LineParts(b);
      EncodeUnique(a[0], "\n" + Lines(a[1..]), b[0], "\n" + Lines(b[1..]));
      assert ("\n" + Lines(a[1..]))[1..] == Lines(a[1..]) && ("\n" + Lines(b[1..]))[1..] == Lines(b[1..]);
      LinesInjective(a[1..], b[1..]);
      assert a == [a[0]] + a[1..] && b == [b[0]] + b[1..];
    }
  }

  lemma LineParts(a: seq<Json>)
    requires a != []
    ensures Lines(a) == Encode(a[0]) + ("\n" + Lines(a[1..])) && Lines(a) != []
  {
    hide Encode;
    assert Encode(a[0]) + "\n" + Lines(a[1..]) == Encode(a[0]) + ("\n" + Lines(a[1..]));
    EncodeStart(a[0]);
  }

  /**
   * A matching checksum means the same payloads, each as often, provided the digest does not collide on the two
   * streams.
   */
  lemma ChecksumIdentifies<D>(hash: string -> D, a: seq<Json>, sortedA: seq<Json>, b: seq<Json>, sortedB: seq<Json>)
    requires multiset(sortedA) == multiset(a) && multiset(sortedB) == multiset(b)
    requires hash(Lines(sortedA)) == hash(Lines(sortedB)) ==> Lines(sortedA) == Lines(sortedB)
    ensures hash(Lines(sortedA)) == hash(Lines(sortedB)) ==> multiset(a) == multiset(b)
  {
    if hash(Lines(sortedA)) == hash(Lines(sortedB)) {
      LinesInjective(sortedA, sortedB);
    }
  }

  /** With distinct keys there is only one sorted order, so the checksum does not depend on the order of the source. */
  lemma {:induction false} SortedOrderIsUnique(a: seq<Json>, b: seq<Json>)
    requires multiset(a) == multiset(b) && SortedByKey(a) && SortedByKey(b) && DistinctKeys(a)
    ensures a == b
  {
    hide NameLeq, EntityKey;
    assert |a| == |multiset(a)| == |b|;
    if a != [] {
      FirstAgrees(a, b);
      assert a == [a[0]] + a[1..] && b == [b[0]] + b[1..];
      assert multiset(a[1..]) == multiset(a) - multiset{a[0]};
      assert multiset(b[1..]) == multiset(b) - multiset{b[0]};
      TailSorted(a);
      TailSorted(b);
      TailDistinct(a);
      SortedOrderIsUnique(a[1..], b[1..]);
    }
  }

  lemma TailSorted(a: seq<Json>)
    requires SortedByKey(a) && a != []
    ensures SortedByKey(a[1..])
  {
  }

  lemma TailDistinct(a: seq<Json>)
    requires DistinctKeys(a) && a != []
    ensures DistinctKeys(a[1..])
  {
  }

  lemma FirstAgrees(a: seq<Json>, b: seq<Json>)
    requires multiset(a) == multiset(b) && SortedByKey(a) && SortedByKey(b) && DistinctKeys(a)
    requires a != [] && b != []
    ensures a[0] == b[0]
  {
    hide NameLeq, EntityKey;
    assert a[0] in multiset(b) && b[0] in multiset(a);
    var i :| 0 <= i < |b| && b[i] == a[0];
    var j :| 0 <= j < |a| && a[j] == b[0];
    assert i > 0 ==> NameLeq(EntityKey(b[0]), EntityKey(b[i]));
    assert j > 0 ==> NameLeq(EntityKey(a[0]), EntityKey(a[j])) && EntityKey(a[0]) != EntityKey(a[j]);
    LexTotalOnKeys(EntityKey(a[0]), EntityKey(b[0]));
  }

  lemma LexTotalOnKeys(x: string, y: string)
    ensures NameLeq(x, y) && NameLeq(y, x) ==> x == y
  {
    LexTotal(CharLeq, x, y);
  }
}
