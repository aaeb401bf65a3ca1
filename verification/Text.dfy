/** Strings: the functions of Go's packages `strings` and `sort` that several parts of the model
    use, and the names of variables. */
module Text {

  /** `strings.Split` with a separator of one character. */
  function Split(s: string, sep: char): (parts: seq<string>)
    ensures parts != []
  {
    if s == "" then [""]
    else
      var rest := Split(s[1..], sep);
      if s[0] == sep then [""] + rest else [[s[0]] + rest[0]] + rest[1..]
  }

  /** `strings.Join` with a separator of one character. */
  function Join(parts: seq<string>, sep: char): string {
    if parts == [] then ""
    else if |parts| == 1 then parts[0]
    else parts[0] + [sep] + Join(parts[1..], sep)
  }

  /** `strings.SplitN`: the last of at most `n` parts is not split any further. */
  function SplitN(s: string, sep: char, n: nat): (parts: seq<string>)
    requires n > 0
    ensures 0 < |parts| <= n
  {
    if n == 1 || sep !in s then [s]
    else
      var i := IndexOf(s, sep);
      [s[..i]] + SplitN(s[i + 1..], sep, n - 1)
  }

  function IndexOf(s: string, c: char): (i: nat)
    requires c in s
    ensures i < |s| && s[i] == c && c !in s[..i]
  {
    if s[0] == c then 0 else
      var i := IndexOf(s[1..], c);
      assert s[..1 + i] == [s[0]] + s[1..][..i];
      1 + i
  }

  /** Separator-free parts survive being joined. */
  lemma {:induction false} SplitJoin(parts: seq<string>, sep: char)
    requires parts != [] && forall part <- parts :: sep !in part
    ensures Split(Join(parts, sep), sep) == parts
    decreases |parts|
  {
    if |parts| == 1 {
      SplitFree(parts[0], sep);
    } else {
      SplitJoin(parts[1..], sep);
      SplitFirst(parts[0], Join(parts[1..], sep), sep);
      assert parts == [parts[0]] + parts[1..];
    }
  }

  lemma {:induction false} SplitFree(s: string, sep: char)
    requires sep !in s
    ensures Split(s, sep) == [s]
  {
    if s != "" {
      SplitFree(s[1..], sep);
      assert [s[0]] + s[1..] == s;
    }
  }

  lemma {:induction false} SplitFirst(first: string, rest: string, sep: char)
    requires sep !in first
    ensures Split(first + [sep] + rest, sep) == [first] + Split(rest, sep)
  {
    var s := first + [sep] + rest;
    if first == "" {
      assert s[1..] == rest;
    } else {
      assert s[1..] == first[1..] + [sep] + rest;
      SplitFirst(first[1..], rest, sep);
      assert [first[0]] + first[1..] == first;
    }
  }

  /** `SplitN` finds the first separator after a separator-free text. */
  lemma SplitNFirst(first: string, rest: string, sep: char, n: nat)
    requires sep !in first && n > 1
    ensures SplitN(first + [sep] + rest, sep, n) == [first] + SplitN(rest, sep, n - 1)
  {
    var s := first + [sep] + rest;
    assert s[|first|] == sep && s[..|first|] == first;
    FirstIndex(s, sep, |first|);
    assert s[|first| + 1..] == rest;
  }

  lemma {:induction false} FirstIndex(s: string, c: char, i: nat)
    requires i < |s| && s[i] == c && c !in s[..i]
    ensures IndexOf(s, c) == i
  {
    if i > 0 {
      assert s[0] in s[..i] && s[..i][1..] == s[1..][..i - 1];
      FirstIndex(s[1..], c, i - 1);
    }
  }

  // ---------- Sorting ----------

  /** The order of `sort.Strings`. */
  predicate Less(a: string, b: string) {
    b != "" && (a == "" || a[0] < b[0] || (a[0] == b[0] && Less(a[1..], b[1..])))
  }

  predicate Sorted(keys: seq<string>) {
    forall i, j :: 0 <= i < j < |keys| ==> Less(keys[i], keys[j])
  }

  lemma {:induction false} LessTotal(a: string, b: string)
    ensures Less(a, b) || Less(b, a) || a == b
  {
    if a != "" && b != "" && a[0] == b[0] {
      LessTotal(a[1..], b[1..]);
      assert a == [a[0]] + a[1..] && b == [b[0]] + b[1..];
    }
  }

  lemma {:induction false} LessTransitive(a: string, b: string, c: string)
    requires Less(a, b) && Less(b, c)
    ensures Less(a, c) && a != c
  {
    if a != "" && a[0] == b[0] && b[0] == c[0] {
      LessTransitive(a[1..], b[1..], c[1..]);
    }
  }

  lemma {:induction false} LessIrreflexive(a: string)
    ensures !Less(a, a)
  {
    if a != "" {
      LessIrreflexive(a[1..]);
    }
  }

  function Insert(key: string, keys: seq<string>): seq<string> {
    if keys == [] || Less(key, keys[0]) then [key] + keys else [keys[0]] + Insert(key, keys[1..])
  }

  lemma {:induction false} InsertSorts(key: string, keys: seq<string>)
    requires Sorted(keys) && key !in keys
    ensures Sorted(Insert(key, keys))
    ensures forall k :: k in Insert(key, keys) <==> k in keys || k == key
  {
    if keys == [] {
    } else if Less(key, keys[0]) {
      forall j | 0 < j < |keys|
        ensures Less(key, keys[j])
      {
        LessTransitive(key, keys[0], keys[j]);
      }
    } else {
      LessTotal(key, keys[0]);
      assert forall k :: k in keys <==> k == keys[0] || k in keys[1..];
      InsertSorts(key, keys[1..]);
      var rest := Insert(key, keys[1..]);
      forall j | 0 <= j < |rest|
        ensures Less(keys[0], rest[j])
      {
        assert rest[j] in rest;
      }
    }
  }

  /** The first difference decides: a character, or the end of the shorter string. */
  lemma {:induction false} FirstDifference(a: string, b: string, i: nat)
    requires i <= |a| && i <= |b| && a[..i] == b[..i]
    requires i == |a| || i == |b| || a[i] != b[i]
    ensures Less(a, b) <==> i < |b| && (i == |a| || a[i] < b[i])
    decreases |a|
  {
    if i > 0 {
      assert a[0] == a[..i][0] && b[0] == b[..i][0];
      assert a[1..][..i - 1] == a[..i][1..] && b[1..][..i - 1] == b[..i][1..];
      FirstDifference(a[1..], b[1..], i - 1);
    }
  }

  /** The members of a set in order, as `sort.Strings` leaves the keys of a map. */
  method SortedList(names: set<string>) returns (s: seq<string>)
    ensures Sorted(s) && forall n :: n in s <==> n in names
  {
    s := [];
    var todo := names;
    while todo != {}
      invariant todo <= names && Sorted(s) && forall n :: n in s <==> n in names && n !in todo
      decreases todo
    {
      var n :| n in todo;
      todo := todo - {n};
      InsertSorts(n, s);
      s := Insert(n, s);
    }
  }

  /** There is only one way to list a set of keys in order. */
  lemma {:induction false} SortedUnique(a: seq<string>, b: seq<string>)
    requires Sorted(a) && Sorted(b) && forall k :: k in a <==> k in b
    ensures a == b
  {
    assert b == [] || b[0] in b;
    if a != [] {
      assert a[0] in b;
      assert b[0] in a;
      if a[0] != b[0] {
        var i :| 0 <= i < |b| && b[i] == a[0];
        var j :| 0 <= j < |a| && a[j] == b[0];
        LessTransitive(a[0], b[0], a[0]);
      }
      LessIrreflexive(a[0]);
      forall k
        ensures k in a[1..] <==> k in b[1..]
      {
        assert k in a <==> k == a[0] || k in a[1..];
        assert k in b <==> k == b[0] || k in b[1..];
      }
      SortedUnique(a[1..], b[1..]);
    }
  }

  /** A sorted list has no member twice. */
  lemma {:induction false} SortedCount(keys: seq<string>, names: set<string>)
    requires Sorted(keys) && forall n :: n in keys <==> n in names
    ensures |keys| == |names|
    decreases |keys|
  {
    if keys == [] {
      assert names == {};
    } else {
      LessIrreflexive(keys[0]);
      assert keys[0] !in keys[1..] && forall n :: n in keys <==> n == keys[0] || n in keys[1..];
      SortedCount(keys[1..], names - {keys[0]});
    }
  }

  // ---------- Variable names ----------

  predicate IsNum(c: char) {
    '0' <= c <= '9'
  }

  predicate ValidVariableNameChar(c: char) {
    c == '_' || 'A' <= c <= 'Z' || 'a' <= c <= 'z' || IsNum(c)
  }

  /** Letters, digits and the underscore. */
  lemma NameCharsAre(c: char)
    ensures IsNum(c) <==> c in "0123456789"
    ensures ValidVariableNameChar(c) <==>
      c in "ABCDEFGHIJKLMNOPQRSTUVWXYZ" || c in "abcdefghijklmnopqrstuvwxyz" || c in "0123456789" || c == '_'
  {
    CharRange("0123456789", '0', c);
    CharRange("ABCDEFGHIJKLMNOPQRSTUVWXYZ", 'A', c);
    CharRange("abcdefghijklmnopqrstuvwxyz", 'a', c);
  }

  lemma CharRange(text: string, first: char, c: char)
    requires forall i :: 0 <= i < |text| ==> text[i] as int == first as int + i
    ensures c in text <==> first as int <= c as int < first as int + |text|
  {
    if first as int <= c as int < first as int + |text| {
      assert text[c as int - first as int] == c;
    }
  }

  /** The length of the variable name at the start of the line. */
  function NameLength(line: string): (n: nat)
    ensures n <= |line| && forall i :: 0 <= i < n ==> ValidVariableNameChar(line[i])
    ensures n < |line| ==> !ValidVariableNameChar(line[n])
  {
    if line == "" || !ValidVariableNameChar(line[0]) then 0 else 1 + NameLength(line[1..])
  }

  predicate IsName(s: string) {
    s != "" && forall i :: 0 <= i < |s| ==> ValidVariableNameChar(s[i])
  }

  predicate StartsWithNameChar(s: string) {
    s != "" && ValidVariableNameChar(s[0])
  }

  lemma {:induction false} NameLengthIs(name: string, rest: string)
    requires (forall i :: 0 <= i < |name| ==> ValidVariableNameChar(name[i])) && !StartsWithNameChar(rest)
    ensures NameLength(name + rest) == |name|
  {
    if name == "" {
      assert name + rest == rest;
    } else {
      assert (name + rest)[1..] == name[1..] + rest;
      NameLengthIs(name[1..], rest);
    }
  }
}
