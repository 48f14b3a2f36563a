/** The order JavaScript's `<` puts strings in: by UTF-16 code units. It is not the order of
    code points, which is Rust's. */
module Utf16 {
  import opened Ordering

  /** A character's code units: one, or a surrogate pair. */
  function UnitsOf(c: char): (u: seq<nat>)
    ensures u != []
    ensures !Supplementary(c) ==> u == [c as int]
    ensures Supplementary(c) ==> |u| == 2 && IsSurrogatePair(u[0], u[1]) && Paired(u[0], u[1]) == c as int
  {
    var v := c as int;
    if v < 0x1_0000 then [v]
    else [0xD800 + (v - 0x1_0000) / 0x400, 0xDC00 + (v - 0x1_0000) % 0x400]
  }

  predicate IsSurrogatePair(hi: nat, lo: nat) {
    0xD800 <= hi < 0xDC00 <= lo < 0xE000
  }

  /** The code point a surrogate pair stands for. */
  function Paired(hi: nat, lo: nat): nat
    requires IsSurrogatePair(hi, lo)
  {
    0x1_0000 + (hi - 0xD800) * 0x400 + (lo - 0xDC00)
  }

  function Units(s: string): seq<nat> {
    if s == "" then [] else UnitsOf(s[0]) + Units(s[1..])
  }

  predicate UnitsLess(a: seq<nat>, b: seq<nat>) {
    b != [] && (a == [] || a[0] < b[0] || (a[0] == b[0] && UnitsLess(a[1..], b[1..])))
  }

  /** The comparison of packages/control-plane/src/diff.ts. */
  predicate JsLess(a: string, b: string) {
    UnitsLess(Units(a), Units(b))
  }

  predicate Supplementary(c: char) {
    c as int >= 0x1_0000
  }

  /** From U+E000 to U+FFFF: above the surrogates, below the supplementary characters. */
  predicate AboveSurrogates(c: char) {
    0xE000 <= c as int < 0x1_0000
  }

  /** Where the two first differ, `a` has a character from U+E000 to U+FFFF and `b` a
      supplementary one. */
  predicate Flips(a: string, b: string) {
    a != "" && b != "" && if a[0] == b[0] then Flips(a[1..], b[1..]) else AboveSurrogates(a[0]) && Supplementary(b[0])
  }

  lemma {:induction false} SharedFront(u: seq<nat>, x: seq<nat>, y: seq<nat>)
    ensures UnitsLess(u + x, u + y) <==> UnitsLess(x, y)
    decreases |u|
  {
    if u == [] {
      assert u + x == x && u + y == y;
    } else {
      assert (u + x)[1..] == u[1..] + x && (u + y)[1..] == u[1..] + y;
      SharedFront(u[1..], x, y);
    }
  }

  /** Where two different characters stand, the first unit that differs decides. */
  lemma FirstDiffers(c: char, d: char, x: seq<nat>, y: seq<nat>)
    requires c != d
    ensures UnitsLess(UnitsOf(c) + x, UnitsOf(d) + y) <==>
      if AboveSurrogates(c) && Supplementary(d) then false
      else if Supplementary(c) && AboveSurrogates(d) then true
      else c < d
  {
    var u, v := UnitsOf(c) + x, UnitsOf(d) + y;
    if Supplementary(c) && Supplementary(d) {
      var p, q := c as int - 0x1_0000, d as int - 0x1_0000;
      assert p == p / 0x400 * 0x400 + p % 0x400 && q == q / 0x400 * 0x400 + q % 0x400;
      assert u[1..][0] == UnitsOf(c)[1] && v[1..][0] == UnitsOf(d)[1];
    }
  }

  /** The two orders agree on every pair but those that flip. */
  lemma {:induction false} JsLessMeans(a: string, b: string)
    ensures JsLess(a, b) <==> (Less(a, b) && !Flips(a, b)) || Flips(b, a)
    ensures Flips(a, b) ==> Less(a, b)
    decreases |a|
  {
    if a != "" && b != "" {
      if a[0] == b[0] {
        SharedFront(UnitsOf(a[0]), Units(a[1..]), Units(b[1..]));
        JsLessMeans(a[1..], b[1..]);
      } else {
        FirstDiffers(a[0], b[0], Units(a[1..]), Units(b[1..]));
      }
    }
  }

  lemma {:induction false} UnitsTransitive(a: seq<nat>, b: seq<nat>, c: seq<nat>)
    requires UnitsLess(a, b) && UnitsLess(b, c)
    ensures UnitsLess(a, c)
  {
    if a != [] && a[0] == b[0] == c[0] { UnitsTransitive(a[1..], b[1..], c[1..]); }
  }

  lemma {:induction false} UnitsAntisymmetric(a: seq<nat>, b: seq<nat>)
    ensures !(UnitsLess(a, b) && UnitsLess(b, a))
  {
    if a != [] && b != [] && a[0] == b[0] { UnitsAntisymmetric(a[1..], b[1..]); }
  }

  lemma JsIsStrict()
    ensures StrictOrder(JsLess)
  {
    forall a, b, c | JsLess(a, b) && JsLess(b, c) ensures JsLess(a, c) { UnitsTransitive(Units(a), Units(b), Units(c)); }
    forall a, b ensures JsLess(a, b) || a == b || JsLess(b, a) ensures !(JsLess(a, b) && JsLess(b, a)) {
      JsLessMeans(a, b);
      JsLessMeans(b, a);
      LessTrichotomy(a, b);
      UnitsAntisymmetric(Units(a), Units(b));
    }
  }
}
