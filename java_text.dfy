/** The string operations the core relies on: `equalsIgnoreCase` against an
    enum constant's name, the enum lookup loop built on it, and
    `Collectors.joining`. */
module JavaText {
  import opened Results

  predicate IsUpperAsciiLetter(c: char) {
    'A' <= c <= 'Z'
  }

  /** The name of an enum constant: upper-case ASCII letters only. */
  predicate IsEnumName(name: string) {
    forall i :: 0 <= i < |name| ==> IsUpperAsciiLetter(name[i])
  }

  /** The upper-case ASCII letter that `String.equalsIgnoreCase` treats `c`
      as equal to, if any; every other character stands for itself. Besides
      `a`..`z`, Java's `Character.toUpperCase` maps dotless i (U+0131) to `I`
      and long s (U+017F) to `S`, and `Character.toLowerCase` maps dotted
      capital I (U+0130) to `i` and the Kelvin sign (U+212A) to `k`. */
  function FoldChar(c: char): char {
    if 'a' <= c <= 'z' then (c as int - 32) as char
    else if c == 'ı' || c == 'İ' then 'I'
    else if c == 'ſ' then 'S'
    else if c == 'K' then 'K'
    else c
  }

  function Fold(s: string): (r: string)
    ensures |r| == |s|
  {
    if s == [] then [] else [FoldChar(s[0])] + Fold(s[1..])
  }

  /** Folding works character by character. */
  lemma {:induction false} FoldAt(s: string)
    ensures forall i :: 0 <= i < |s| ==> Fold(s)[i] == FoldChar(s[i])
  {
    if s != [] {
      FoldAt(s[1..]);
    }
  }

  /** `name.equalsIgnoreCase(s)` for an enum constant's `name`: the strings
      have the same length and agree character by character up to case. */
  predicate EqualsIgnoreCase(name: string, s: string) {
    Fold(s) == name
  }

  /** An enum name matches itself and its lower-case spelling. */
  lemma {:induction false} FoldEnumName(name: string)
    requires IsEnumName(name)
    ensures Fold(name) == name
  {
    FoldAt(name);
    assert forall i :: 0 <= i < |name| ==> Fold(name)[i] == name[i];
  }

  /** A string whose first character folds to something other than the
      name's first letter does not equal the name ignoring case. */
  lemma FirstCharMismatch(name: string, s: string)
    requires |s| > 0 && |name| > 0 && FoldChar(s[0]) != name[0]
    ensures !EqualsIgnoreCase(name, s)
  {
    FoldAt(s);
  }

  /** Two enum names that both equal one string ignoring case are the same
      name. */
  lemma SameNameIgnoringCase(a: string, b: string, s: string)
    requires EqualsIgnoreCase(a, s) && EqualsIgnoreCase(b, s)
    ensures a == b
  {
  }

  /** Entry `k` is the first entry of `table` whose name equals `s` ignoring
      case. */
  predicate FirstMatchAt<T>(table: seq<T>, name: T -> string, s: string, k: int) {
    && 0 <= k < |table|
    && EqualsIgnoreCase(name(table[k]), s)
    && forall j :: 0 <= j < k ==> !EqualsIgnoreCase(name(table[j]), s)
  }

  /** The loop `for (E e : E.values()) if (name(e).equalsIgnoreCase(s))
      return e;`: the first entry of `table` whose name equals `s` ignoring
      case, or `None` when the loop runs off the end. */
  function FindByName<T>(table: seq<T>, name: T -> string, s: string): Option<T> {
    if table == [] then None
    else if EqualsIgnoreCase(name(table[0]), s) then Some(table[0])
    else FindByName(table[1..], name, s)
  }

  /** The lookup returns the first matching entry, and nothing exactly when
      no entry matches. */
  lemma {:induction false} FindByNameSpec<T>(table: seq<T>, name: T -> string, s: string)
    ensures FindByName(table, name, s).Some? ==>
      exists k :: FirstMatchAt(table, name, s, k) && table[k] == FindByName(table, name, s).value
    ensures FindByName(table, name, s).None? <==> forall k :: 0 <= k < |table| ==> !EqualsIgnoreCase(name(table[k]), s)
  {
    if table == [] {
    } else if EqualsIgnoreCase(name(table[0]), s) {
      assert FirstMatchAt(table, name, s, 0);
    } else {
      var r := FindByName(table[1..], name, s);
      FindByNameSpec(table[1..], name, s);
      if r.Some? {
        var k :| FirstMatchAt(table[1..], name, s, k) && table[1..][k] == r.value;
        assert FirstMatchAt(table, name, s, k + 1);
      } else {
        assert forall k :: 1 <= k < |table| ==> table[k] == table[1..][k - 1];
      }
    }
  }

  /** In a table whose names are pairwise distinct, the lookup returns an
      entry exactly when that entry's name equals `s` ignoring case. */
  lemma FindByNameExact<T>(table: seq<T>, name: T -> string, s: string, v: T)
    requires v in table
    requires forall i, j :: 0 <= i < j < |table| ==> name(table[i]) != name(table[j])
    ensures FindByName(table, name, s) == Some(v) <==> EqualsIgnoreCase(name(v), s)
  {
    var r := FindByName(table, name, s);
    FindByNameSpec(table, name, s);
    if EqualsIgnoreCase(name(v), s) {
      var i :| 0 <= i < |table| && table[i] == v;
      var k :| FirstMatchAt(table, name, s, k) && table[k] == r.value;
      SameNameIgnoringCase(name(table[k]), name(table[i]), s);
    }
    if r == Some(v) {
      var k :| FirstMatchAt(table, name, s, k) && table[k] == r.value;
    }
  }

  /** `Collectors.joining(sep)`: the parts in order with `sep` between
      neighbours; no parts give the empty string. */
  function Join(parts: seq<string>, sep: string): string {
    if parts == [] then ""
    else if |parts| == 1 then parts[0]
    else parts[0] + sep + Join(parts[1..], sep)
  }
}
