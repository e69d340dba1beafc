/**
 * Request URLs for XYZ tile servers: the template's `{x}`, `{y}`, `{-y}` and
 * `{z}` placeholders are replaced, first occurrence only, by the decimal
 * column, row, flipped row and zoom.
 */
module TileUrl {
  import opened Types
  import Quadtree

  /** The row counted from the bottom of the `2^z` grid instead of from the top. */
  function InvertedY(y: int, z: nat): int {
    Quadtree.Pow2(z) - 1 - y
  }

  /** Flipping keeps a row on the grid. */
  lemma InvertedYInRange(y: int, z: nat)
    requires 0 <= y < Quadtree.Pow2(z)
    ensures 0 <= InvertedY(y, z) < Quadtree.Pow2(z)
  {
  }

  /** Flipping twice gives back the row. */
  lemma InvertedYInvolution(y: int, z: nat)
    ensures InvertedY(InvertedY(y, z), z) == y
  {
  }

  predicate IsDigit(c: char) {
    '0' as int <= c as int <= '9' as int
  }

  function DigitChar(d: nat): (c: char)
    requires d < 10
    ensures IsDigit(c) && c as int - '0' as int == d
  {
    ('0' as int + d) as char
  }

  /** The decimal numeral of `n`, without leading zeros. */
  function NatToString(n: nat): (s: string)
    decreases n
    ensures |s| >= 1
    ensures forall i | 0 <= i < |s| :: IsDigit(s[i])
    ensures |s| > 1 ==> s[0] != '0'
  {
    if n < 10 then [DigitChar(n)] else NatToString(n / 10) + [DigitChar(n % 10)]
  }

  /** JavaScript's `toString` on an integer: a minus sign, if negative, then the decimal digits. */
  function IntToString(n: int): (s: string)
    ensures |s| >= 1
    ensures forall i | 0 <= i < |s| :: IsDigit(s[i]) || (i == 0 && s[i] == '-')
    ensures s[0] == '-' <==> n < 0
  {
    if n < 0 then "-" + NatToString(-n) else NatToString(n)
  }

  /** The value of a string of decimal digits. */
  function DigitsValue(s: string): nat
    requires forall i | 0 <= i < |s| :: IsDigit(s[i])
  {
    if s == [] then 0
    else
      var last := s[|s| - 1];
      assert IsDigit(last);
      DigitsValue(s[..|s| - 1]) * 10 + (last as int - '0' as int)
  }

  /** The value of an optionally signed decimal numeral. */
  function NumeralValue(s: string): int
    requires |s| >= 1
    requires forall i | 0 <= i < |s| :: IsDigit(s[i]) || (i == 0 && s[i] == '-')
  {
    if s[0] == '-' then -(DigitsValue(s[1..]) as int) else DigitsValue(s)
  }

  lemma {:induction false} NatToStringValue(n: nat)
    decreases n
    ensures DigitsValue(NatToString(n)) == n
  {
    if n >= 10 {
      var s := NatToString(n);
      assert s[..|s| - 1] == NatToString(n / 10);
      NatToStringValue(n / 10);
    }
  }

  /** The numeral inserted into a URL reads back as the number it was made from. */
  lemma IntToStringRoundTrip(n: int)
    ensures NumeralValue(IntToString(n)) == n
  {
    if n < 0 {
      assert IntToString(n)[1..] == NatToString(-n);
      NatToStringValue(-n);
    } else {
      NatToStringValue(n);
    }
  }

  /** `pat` occurs in `s` starting at index `i`. */
  predicate OccursAt(s: string, pat: string, i: int) {
    0 <= i && i + |pat| <= |s| && s[i..i + |pat|] == pat
  }

  /** The first index at or after `i` where `pat` occurs in `s` (`indexOf`). */
  function FindFrom(s: string, pat: string, i: nat): (r: Option<nat>)
    decreases |s| - i
    ensures r.Some? ==> i <= r.value && OccursAt(s, pat, r.value)
    ensures r.Some? ==> forall j | i <= j < r.value :: !OccursAt(s, pat, j)
    ensures r.None? ==> forall j | i <= j :: !OccursAt(s, pat, j)
  {
    if i + |pat| > |s| then None
    else if s[i..i + |pat|] == pat then Some(i)
    else FindFrom(s, pat, i + 1)
  }

  /** `String.prototype.replace` with a string pattern: only the first occurrence is replaced. */
  function ReplaceFirst(s: string, pat: string, rep: string): string {
    match FindFrom(s, pat, 0)
    case None => s
    case Some(i) => s[..i] + rep + s[i + |pat|..]
  }

  /** Without an occurrence the string is kept; otherwise the earliest occurrence is replaced. */
  lemma ReplaceFirstSpec(s: string, pat: string, rep: string)
    ensures (forall j :: !OccursAt(s, pat, j)) ==> ReplaceFirst(s, pat, rep) == s
    ensures forall i :: OccursAt(s, pat, i) && (forall j | 0 <= j < i :: !OccursAt(s, pat, j)) ==>
      ReplaceFirst(s, pat, rep) == s[..i] + rep + s[i + |pat|..]
  {
  }

  /** The XYZ request URL of tile (x, y, z) for a template. */
  function GetTileUrl(template: string, x: int, y: int, z: nat): string {
    var invertedY := InvertedY(y, z);
    var withX := ReplaceFirst(template, "{x}", IntToString(x));
    var withY := ReplaceFirst(withX, "{y}", IntToString(y));
    var withInvertedY := ReplaceFirst(withY, "{-y}", IntToString(invertedY));
    ReplaceFirst(withInvertedY, "{z}", IntToString(z))
  }

  ghost predicate Mentions(s: string, pat: string) {
    exists j :: OccursAt(s, pat, j)
  }

  /** A template with none of the four placeholders is used as it is. */
  lemma NoPlaceholderUnchanged(template: string, x: int, y: int, z: nat)
    requires !Mentions(template, "{x}") && !Mentions(template, "{y}")
    requires !Mentions(template, "{-y}") && !Mentions(template, "{z}")
    ensures GetTileUrl(template, x, y, z) == template
  {
    ReplaceFirstSpec(template, "{x}", IntToString(x));
    ReplaceFirstSpec(template, "{y}", IntToString(y));
    ReplaceFirstSpec(template, "{-y}", IntToString(InvertedY(y, z)));
    ReplaceFirstSpec(template, "{z}", IntToString(z));
  }

  predicate BraceFree(s: string) {
    forall i | 0 <= i < |s| :: s[i] != '{'
  }

  /** A placeholder is found at the first position that starts it. */
  lemma ReplaceAfter(a: string, pat: string, b: string, rep: string)
    requires forall j | 0 <= j < |a| :: !OccursAt(a + pat + b, pat, j)
    ensures ReplaceFirst(a + pat + b, pat, rep) == a + rep + b
  {
    var s := a + pat + b;
    assert s[|a|..|a| + |pat|] == pat;
    assert s[..|a|] == a && s[|a| + |pat|..] == b;
    ReplaceFirstSpec(s, pat, rep);
  }

  /** Nothing that starts with a brace occurs where there is no brace. */
  lemma NotAtNonBrace(s: string, pat: string, j: int)
    requires |pat| > 0 && pat[0] == '{'
    requires 0 <= j < |s| && s[j] != '{'
    ensures !OccursAt(s, pat, j)
  {
    if j + |pat| <= |s| {
      assert s[j..j + |pat|][0] == s[j];
    }
  }

  /** A placeholder cannot start at `{` when its next character differs from the one at `j + 1`. */
  lemma NotAtOtherPlaceholder(s: string, pat: string, j: int)
    requires |pat| > 1 && 0 <= j && j + 1 < |s| && s[j + 1] != pat[1]
    ensures !OccursAt(s, pat, j)
  {
    if j + |pat| <= |s| {
      assert s[j..j + |pat|][1] == s[j + 1];
    }
  }

  lemma NumeralBraceFree(n: int)
    ensures BraceFree(IntToString(n))
  {
  }

  /** In `host + "{z}" + mid`, with no other brace, only `{z}` starts with a brace. */
  lemma OnlyZBrace(host: string, mid: string, tail: string, pat: string, j: int)
    requires BraceFree(host) && BraceFree(mid)
    requires |pat| > 1 && pat[0] == '{' && pat[1] != 'z'
    requires 0 <= j < |host| + 3 + |mid|
    ensures !OccursAt(host + "{z}" + mid + tail, pat, j)
  {
    var s := host + "{z}" + mid + tail;
    var p := |host|;
    if j == p {
      assert s[p + 1] == 'z';
      NotAtOtherPlaceholder(s, pat, j);
    } else {
      if j < p {
        assert s[j] == host[j];
      } else if j < p + 3 {
        assert s[j] == "{z}"[j - p];
      } else {
        assert s[j] == mid[j - p - 3];
      }
      NotAtNonBrace(s, pat, j);
    }
  }

  /** A placeholder other than `{z}` after `host + "{z}" + mid` is the first one. */
  lemma ReplaceAfterZ(host: string, mid: string, pat: string, tail: string, rep: string)
    requires BraceFree(host) && BraceFree(mid)
    requires |pat| > 1 && pat[0] == '{' && pat[1] != 'z'
    ensures ReplaceFirst(host + "{z}" + mid + pat + tail, pat, rep) == host + "{z}" + mid + rep + tail
  {
    var a := host + "{z}" + mid;
    forall j | 0 <= j < |a| ensures !OccursAt(a + pat + tail, pat, j) {
      OnlyZBrace(host, mid, pat + tail, pat, j);
      assert a + pat + tail == host + "{z}" + mid + (pat + tail);
    }
    ReplaceAfter(a, pat, tail, rep);
  }

  /** A placeholder other than `{z}` is absent from `host + "{z}" + mid`. */
  lemma AbsentAfterZ(host: string, mid: string, pat: string, rep: string)
    requires BraceFree(host) && BraceFree(mid)
    requires |pat| > 1 && pat[0] == '{' && pat[1] != 'z'
    ensures ReplaceFirst(host + "{z}" + mid, pat, rep) == host + "{z}" + mid
  {
    var s := host + "{z}" + mid;
    forall j ensures !OccursAt(s, pat, j) {
      if 0 <= j < |s| {
        OnlyZBrace(host, mid, "", pat, j);
        assert s + "" == s;
      }
    }
    ReplaceFirstSpec(s, pat, rep);
  }

  /** A placeholder right after a part with no brace is the first one. */
  lemma ReplaceAfterBraceFree(a: string, pat: string, b: string, rep: string)
    requires BraceFree(a) && |pat| > 0 && pat[0] == '{'
    ensures ReplaceFirst(a + pat + b, pat, rep) == a + rep + b
  {
    forall j | 0 <= j < |a| ensures !OccursAt(a + pat + b, pat, j) {
      assert (a + pat + b)[j] == a[j];
      NotAtNonBrace(a + pat + b, pat, j);
    }
    ReplaceAfter(a, pat, b, rep);
  }

  lemma TemplateParts(host: string, suffix: string, sx: string, sy: string, sz: string)
    ensures host + "{z}/{x}/{y}" + suffix == host + "{z}" + "/" + "{x}" + ("/{y}" + suffix)
    ensures host + "{z}" + "/" + sx + ("/{y}" + suffix) == host + "{z}" + ("/" + sx + "/") + "{y}" + suffix
    ensures host + "{z}" + ("/" + sx + "/") + sy + suffix == host + "{z}" + ("/" + sx + "/" + sy + suffix)
    ensures host + sz + ("/" + sx + "/" + sy + suffix) == host + sz + "/" + sx + "/" + sy + suffix
  {
    assert "{z}/{x}/{y}" == "{z}" + "/" + "{x}" + "/{y}";
  }

  /**
   * The usual `{z}/{x}/{y}` template, behind a host part and before a
   * suffix that hold no brace, yields `z/x/y` in decimal.
   */
  lemma ZxyTemplate(host: string, suffix: string, x: int, y: int, z: nat)
    requires BraceFree(host) && BraceFree(suffix)
    ensures GetTileUrl(host + "{z}/{x}/{y}" + suffix, x, y, z)
      == host + IntToString(z) + "/" + IntToString(x) + "/" + IntToString(y) + suffix
  {
    var sx, sy, sz := IntToString(x), IntToString(y), IntToString(z);
    NumeralBraceFree(x);
    NumeralBraceFree(y);
    TemplateParts(host, suffix, sx, sy, sz);
    var mid := "/" + sx + "/" + sy + suffix;
    ReplaceAfterZ(host, "/", "{x}", "/{y}" + suffix, sx);
    ReplaceAfterZ(host, "/" + sx + "/", "{y}", suffix, sy);
    AbsentAfterZ(host, mid, "{-y}", IntToString(InvertedY(y, z)));
    ReplaceAfterBraceFree(host, "{z}", mid, sz);
  }
}
