/** JSON values, path names, and walking a tree one component at a time. */
module JsonTree {

  type Byte = x: int | 0 <= x < 256

  /** A leaf holds the encoded text of its value; an object's keys keep their order. */
  datatype Json = Obj(entries: seq<Entry>) | Arr(items: seq<Json>) | Leaf(text: seq<Byte>)
  datatype Entry = Entry(key: string, value: Json)
  datatype Option<+T> = None | Some(value: T)

  predicate Container(j: Json) {
    !j.Leaf?
  }

  function Digit(d: nat): char
    requires d < 10
  {
    ['0', '1', '2', '3', '4', '5', '6', '7', '8', '9'][d]
  }

  /** str(n) */
  function Decimal(n: nat): string {
    if n < 10 then [Digit(n)] else Decimal(n / 10) + [Digit(n % 10)]
  }

  lemma {:induction false} DecimalInjective(m: nat, n: nat)
    requires Decimal(m) == Decimal(n)
    ensures m == n
  {
    if m >= 10 && n >= 10 {
      assert Decimal(m)[..|Decimal(m)| - 1] == Decimal(m / 10);
      assert Decimal(n)[..|Decimal(n)| - 1] == Decimal(n / 10);
      DecimalInjective(m / 10, n / 10);
      assert Decimal(m)[|Decimal(m)| - 1] == Digit(m % 10);
      assert Decimal(n)[|Decimal(n)| - 1] == Digit(n % 10);
    } else {
      DecimalLength(m);
      DecimalLength(n);
    }
  }

  lemma {:induction false} DecimalLength(n: nat)
    ensures n < 10 <==> |Decimal(n)| == 1
    ensures Clean(Decimal(n))
  {
    if n >= 10 {
      DecimalLength(n / 10);
    }
  }

  /** What a string of digits denotes in base 10. */
  function Numeral(digits: string): int {
    if digits == "" then 0
    else 10 * Numeral(digits[..|digits| - 1]) + (digits[|digits| - 1] as int - '0' as int)
  }

  lemma DigitValue(d: nat)
    requires d < 10
    ensures '0' <= Digit(d) <= '9' && Digit(d) as int - '0' as int == d
  {
  }

  /** Decimal(n) is the base-10 numeral of n: digits only, no leading zero, and it denotes n. */
  lemma {:induction false} DecimalIsNumeral(n: nat)
    ensures Decimal(n) != "" && forall i :: 0 <= i < |Decimal(n)| ==> '0' <= Decimal(n)[i] <= '9'
    ensures Numeral(Decimal(n)) == n
    ensures Decimal(n)[0] == '0' <==> n == 0
  {
    DigitValue(n % 10);
    if n >= 10 {
      DecimalIsNumeral(n / 10);
      assert Decimal(n)[..|Decimal(n)| - 1] == Decimal(n / 10);
    } else {
      assert Numeral("") == 0 && Decimal(n)[..0] == "";
    }
  }

  function Size(j: Json): nat {
    match j
    case Obj(entries) => |entries|
    case Arr(items) => |items|
    case Leaf(_) => 0
  }

  /** The i-th child's name: its key, or its index in decimal. */
  function KeyAt(j: Json, i: nat): string
    requires i < Size(j)
  {
    if j.Obj? then j.entries[i].key else Decimal(i)
  }

  function ValueAt(j: Json, i: nat): (v: Json)
    requires i < Size(j)
    ensures v < j
  {
    if j.Obj? then j.entries[i].value else j.items[i]
  }

  function Names(j: Json): (r: seq<string>)
    ensures |r| == Size(j) && forall i :: 0 <= i < |r| ==> r[i] == KeyAt(j, i)
  {
    seq(Size(j), i requires 0 <= i < Size(j) => KeyAt(j, i))
  }

  /** The first child called `name` from position i on, or Size(j). */
  function Find(j: Json, name: string, i: nat): (k: nat)
    requires i <= Size(j)
    ensures i <= k <= Size(j)
    ensures k < Size(j) ==> KeyAt(j, k) == name
    ensures forall x :: i <= x < k ==> KeyAt(j, x) != name
    decreases Size(j) - i
  {
    if i == Size(j) || KeyAt(j, i) == name then i else Find(j, name, i + 1)
  }

  /** Walking the tree: one child per component. */
  function Walk(j: Json, comps: seq<string>): Option<Json>
    decreases |comps|
  {
    if comps == [] then Some(j)
    else
      var k := Find(j, comps[0], 0);
      if k < Size(j) then Walk(ValueAt(j, k), comps[1..]) else None
  }

  /** A usable name: not empty and without a slash. */
  predicate Clean(name: string) {
    name != "" && '/' !in name
  }

  predicate CleanAll(comps: seq<string>) {
    forall i :: 0 <= i < |comps| ==> Clean(comps[i])
  }

  /** Every key in the tree is clean, and no object has the same key twice. */
  predicate CleanTree(j: Json) {
    && (forall i :: 0 <= i < Size(j) ==> CleanTree(ValueAt(j, i)))
    && (j.Obj? ==>
          && (forall i :: 0 <= i < Size(j) ==> Clean(KeyAt(j, i)))
          && (forall i, k :: 0 <= i < k < Size(j) ==> KeyAt(j, i) != KeyAt(j, k)))
  }

  /** No object has the same key twice, as in every parsed JSON text. */
  predicate UniqueKeys(j: Json) {
    && (forall i :: 0 <= i < Size(j) ==> UniqueKeys(ValueAt(j, i)))
    && (j.Obj? ==> forall i, k :: 0 <= i < k < Size(j) ==> KeyAt(j, i) != KeyAt(j, k))
  }

  lemma DistinctNames(j: Json)
    requires UniqueKeys(j)
    ensures forall i, k :: 0 <= i < k < Size(j) ==> KeyAt(j, i) != KeyAt(j, k)
  {
    if j.Arr? {
      forall i, k | 0 <= i < k < Size(j) ensures KeyAt(j, i) != KeyAt(j, k) {
        if Decimal(i) == Decimal(k) {
          DecimalInjective(i, k);
        }
      }
    }
  }

  lemma CleanIsUnique(j: Json)
    requires CleanTree(j)
    ensures UniqueKeys(j)
  {
  }

  lemma CleanKeys(j: Json)
    requires CleanTree(j)
    ensures forall i :: 0 <= i < Size(j) ==> Clean(KeyAt(j, i))
    ensures forall i, k :: 0 <= i < k < Size(j) ==> KeyAt(j, i) != KeyAt(j, k)
  {
    CleanIsUnique(j);
    DistinctNames(j);
    if j.Arr? {
      forall i | 0 <= i < Size(j) ensures Clean(KeyAt(j, i)) {
        DecimalLength(i);
      }
    }
  }

  // ----- path names -----

  /** os.path.join on POSIX. */
  function Join(path: string, name: string): string {
    if name != "" && name[0] == '/' then name
    else if path == "" || path[|path| - 1] == '/' then path + name
    else path + "/" + name
  }

  /** The path that joins the components to the root one after the other. */
  function Path(comps: seq<string>): string
    decreases |comps|
  {
    if comps == [] then "/" else Join(Path(comps[..|comps| - 1]), comps[|comps| - 1])
  }

  lemma PathSnoc(comps: seq<string>, name: string)
    ensures Path(comps + [name]) == Join(Path(comps), name)
  {
    assert (comps + [name])[..|comps|] == comps;
  }

  /** A clean path other than the root is its parent's text, a slash, and the last component. */
  lemma {:induction false} PathShape(comps: seq<string>)
    requires CleanAll(comps)
    ensures Path(comps) != "" && (comps != [] ==> Path(comps)[|Path(comps)| - 1] != '/')
    ensures comps != [] ==>
              Path(comps) == (if |comps| == 1 then "" else Path(comps[..|comps| - 1])) + "/" + comps[|comps| - 1]
    ensures if comps == [] then Path(comps) == "/" else |Path(comps)| > 1
    decreases |comps|
  {
    if comps != [] {
      PathShape(comps[..|comps| - 1]);
      assert Clean(comps[|comps| - 1]);
    }
  }

  lemma LastSlash(x: string, k: string, y: string, m: string)
    requires x + "/" + k == y + "/" + m && '/' !in k && '/' !in m
    ensures x == y && k == m
  {
    var s := x + "/" + k;
    assert s[|x|] == '/' && s[|y|] == '/';
    assert forall i :: |x| < i < |s| ==> s[i] == k[i - |x| - 1] && s[i] in k;
    assert forall i :: |y| < i < |s| ==> s[i] == m[i - |y| - 1] && s[i] in m;
    assert |x| == |y|;
    assert s[..|x|] == x && s[..|y|] == y && s[|x| + 1..] == k && s[|y| + 1..] == m;
  }

  /** Distinct clean component lists have distinct paths. */
  lemma {:induction false} PathInjective(c: seq<string>, d: seq<string>)
    requires CleanAll(c) && CleanAll(d) && Path(c) == Path(d)
    ensures c == d
    decreases |c|
  {
    hide Path, Join;
    PathShape(c);
    PathShape(d);
    if c != [] && d != [] {
      var ci, di := c[..|c| - 1], d[..|d| - 1];
      assert Clean(c[|c| - 1]) && Clean(d[|d| - 1]);
      LastSlash(if |c| == 1 then "" else Path(ci), c[|c| - 1], if |d| == 1 then "" else Path(di), d[|d| - 1]);
      PathShape(ci);
      PathShape(di);
      if |c| > 1 && |d| > 1 {
        PathInjective(ci, di);
      }
      assert c == ci + [c[|c| - 1]] && d == di + [d[|d| - 1]];
    }
  }
}
