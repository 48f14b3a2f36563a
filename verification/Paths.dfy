/** Manifest paths and their components (crates/mari-core/src/rootfs.rs). A path such
    as `/a/b` is text on the wire; every file-system operation works on its components. */
module Paths {
  import opened Basics

  type Path = seq<string>

  /** A name a directory entry can carry and a manifest path can spell. */
  predicate ValidName(n: string) {
    n != "" && n != "." && n != ".." && '/' !in n
  }

  predicate ValidPath(p: Path) {
    forall i :: 0 <= i < |p| ==> ValidName(p[i])
  }

  /** The text of a path below the root, as the walk composes it; the root itself is "". */
  function Join(p: Path): string {
    if p == [] then "" else Join(p[..|p| - 1]) + "/" + p[|p| - 1]
  }

  /** The text a manifest uses for a path: the root is "/". */
  function ManifestPath(p: Path): string {
    if p == [] then "/" else Join(p)
  }

  /** Cut at every separator; `cur` is the piece being read. */
  function Pieces(s: string, cur: string): (r: seq<string>)
    ensures r != []
  {
    if s == "" then [cur]
    else if s[0] == '/' then [cur] + Pieces(s[1..], "")
    else Pieces(s[1..], cur + [s[0]])
  }

  /** Empty pieces and "." name nothing. */
  function Significant(pieces: seq<string>): (r: Path)
    ensures |r| <= |pieces|
    ensures forall x :: x in r <==> x in pieces && x != "" && x != "."
  {
    if pieces == [] then []
    else (if pieces[0] == "" || pieces[0] == "." then [] else [pieces[0]]) + Significant(pieces[1..])
  }

  /** The components of a path, refused when one of them is "..". */
  function LexicalComponents(s: string): Option<Path> {
    var pieces := Pieces(s, "");
    if ".." in pieces then None else Some(Significant(pieces))
  }

  lemma {:induction false} PiecesNoSlash(s: string, cur: string)
    requires '/' !in cur
    ensures forall x :: x in Pieces(s, cur) ==> '/' !in x
    decreases |s|
  {
    if s != "" {
      if s[0] == '/' { PiecesNoSlash(s[1..], ""); } else { PiecesNoSlash(s[1..], cur + [s[0]]); }
    }
  }

  /** Whatever text is parsed, the components are names a directory entry can carry. */
  lemma ComponentsAreValid(s: string)
    ensures LexicalComponents(s).Some? ==> ValidPath(LexicalComponents(s).value)
  {
    PiecesNoSlash(s, "");
    var pieces := Pieces(s, "");
    if ".." !in pieces {
      var r := Significant(pieces);
      forall i | 0 <= i < |r| ensures ValidName(r[i]) {
        assert r[i] in r;
      }
    }
  }

  lemma {:induction false} PiecesOfName(n: string, rest: string, cur: string)
    requires '/' !in n
    ensures Pieces(n + rest, cur) == Pieces(rest, cur + n)
    decreases |n|
  {
    if n == "" {
      assert n + rest == rest && cur + n == cur;
    } else {
      assert (n + rest)[1..] == n[1..] + rest;
      assert cur + [n[0]] + n[1..] == cur + n;
      assert '/' != n[0];
      PiecesOfName(n[1..], rest, cur + [n[0]]);
    }
  }

  /** The pieces with a separator between each two. */
  function Glue(pieces: seq<string>): string
    requires pieces != []
  {
    if |pieces| == 1 then pieces[0] else pieces[0] + "/" + Glue(pieces[1..])
  }

  lemma {:induction false} PiecesOfGlue(pieces: seq<string>)
    requires pieces != [] && forall p :: p in pieces ==> '/' !in p
    ensures Pieces(Glue(pieces), "") == pieces
  {
    var first := pieces[0];
    assert first in pieces && "" + first == first;
    if |pieces| == 1 {
      PiecesOfName(first, "", "");
      assert first + "" == first;
    } else {
      assert forall p :: p in pieces[1..] ==> p in pieces;
      PiecesOfGlue(pieces[1..]);
      PiecesOfName(first, "/" + Glue(pieces[1..]), "");
      assert first + "/" + Glue(pieces[1..]) == first + ("/" + Glue(pieces[1..]));
      assert ("/" + Glue(pieces[1..]))[1..] == Glue(pieces[1..]);
    }
  }

  lemma {:induction false} GlueOfPieces(s: string, cur: string)
    ensures Glue(Pieces(s, cur)) == cur + s
    decreases |s|
  {
    if s != "" {
      if s[0] == '/' {
        GlueOfPieces(s[1..], "");
        assert (if true then [cur] + Pieces(s[1..], "") else [])[1..] == Pieces(s[1..], "");
        assert cur + "/" + ("" + s[1..]) == cur + s;
      } else {
        GlueOfPieces(s[1..], cur + [s[0]]);
        assert cur + [s[0]] + s[1..] == cur + s;
      }
    } else {
      assert cur + s == cur;
    }
  }

  /** Any text at all is pieces without a separator, glued by separators, and it is refused exactly
      when one of the pieces is ".."; otherwise its components are the pieces other than "" and
      ".", in order. */
  lemma ComponentsExact(s: string) returns (pieces: seq<string>)
    ensures pieces != [] && (forall p :: p in pieces ==> '/' !in p) && Glue(pieces) == s
    ensures LexicalComponents(s) == if ".." in pieces then None else Some(Significant(pieces))
    ensures forall other: seq<string> :: other != [] && (forall p :: p in other ==> '/' !in p) && Glue(other) == s ==> other == pieces
  {
    pieces := Pieces(s, "");
    PiecesNoSlash(s, "");
    GlueOfPieces(s, "");
    assert "" + s == s;
    forall other: seq<string> | other != [] && (forall p :: p in other ==> '/' !in p) && Glue(other) == s ensures other == pieces {
      PiecesOfGlue(other);
    }
  }

  lemma SignificantFirst(a: seq<string>)
    requires a != []
    ensures Significant(a) == (if a[0] == "" || a[0] == "." then [] else [a[0]]) + Significant(a[1..])
  {
  }

  lemma SignificantOfOne(p: string)
    ensures Significant([p]) == if p == "" || p == "." then [] else [p]
  {
    SignificantFirst([p]);
    assert [p][1..] == [] && Significant([]) == [];
  }

  lemma Associative<T>(a: seq<T>, b: seq<T>, c: seq<T>)
    ensures a + (b + c) == a + b + c
  {
  }

  /** Pieces are significant or not one by one. */
  lemma {:induction false} SignificantOfBoth(a: seq<string>, b: seq<string>)
    ensures Significant(a + b) == Significant(a) + Significant(b)
  {
    if a == [] {
      assert a + b == b && Significant(a) == [];
    } else {
      SignificantOfBoth(a[1..], b);
      assert (a + b)[0] == a[0] && (a + b)[1..] == a[1..] + b;
      SignificantFirst(a);
      SignificantFirst(a + b);
      hide Significant;
      Associative(if a[0] == "" || a[0] == "." then [] else [a[0]], Significant(a[1..]), Significant(b));
    }
  }

  lemma Regroup(a: string, n: string, rest: string)
    ensures (a + "/" + n) + rest == a + ("/" + n + rest)
    ensures ("/" + n + rest)[1..] == n + rest
  {
  }

  lemma {:induction false} PiecesOfJoin(p: Path, rest: string)
    requires ValidPath(p)
    requires rest == "" || rest[0] == '/'
    ensures Pieces(Join(p) + rest, "") == (if p == [] then [] else [""] + p[..|p| - 1]) + Pieces(rest, if p == [] then "" else p[|p| - 1])
    decreases |p|
  {
    if p == [] {
      assert Join(p) + rest == rest;
    } else {
      var q, n := p[..|p| - 1], p[|p| - 1];
      var rest' := "/" + n + rest;
      Regroup(Join(q), n, rest);
      PiecesOfJoin(q, rest');
      PiecesOfName(n, rest, "");
      assert Pieces(rest', if q == [] then "" else q[|q| - 1]) == [if q == [] then "" else q[|q| - 1]] + Pieces(rest, n) by {
        assert "" + n == n;
      }
      SplitLast(q, Pieces(rest, n));
    }
  }

  lemma SplitLast(q: Path, tail: seq<string>)
    ensures (if q == [] then [] else [""] + q[..|q| - 1]) + ([if q == [] then "" else q[|q| - 1]] + tail) == [""] + q + tail
  {
    if q != [] { assert q == q[..|q| - 1] + [q[|q| - 1]]; }
  }

  lemma {:induction false} SignificantOfPath(p: Path)
    requires ValidPath(p)
    ensures Significant(p) == p
  {
    if p != [] {
      SignificantOfPath(p[1..]);
    }
  }

  lemma PiecesOfWholePath(p: Path)
    requires ValidPath(p)
    ensures Pieces(Join(p), "") == [""] + p
  {
    PiecesOfJoin(p, "");
    assert Join(p) + "" == Join(p);
    if p != [] {
      assert Pieces("", p[|p| - 1]) == [p[|p| - 1]];
      assert p == p[..|p| - 1] + [p[|p| - 1]];
    }
  }

  /** Composing a path and splitting it again gives the components back. */
  lemma ComponentsOfJoin(p: Path)
    requires ValidPath(p)
    ensures LexicalComponents(Join(p)) == Some(p)
    ensures LexicalComponents(ManifestPath(p)) == Some(p)
  {
    PiecesOfWholePath(p);
    var pieces := [""] + p;
    assert pieces[1..] == p;
    SignificantOfPath(p);
    assert forall x :: x in p ==> ValidName(x);
    assert ".." !in pieces;
    assert Significant(pieces) == Significant(pieces[1..]);
    if p == [] {
      assert Pieces("/", "") == [""] + Pieces("", "");
      assert Pieces("/", "") == ["", ""];
      assert ["", ""][1..] == [""];
      assert [""][1..] == [];
      assert Significant([""]) == [];
    }
  }

  /** Different component lists are spelled differently. */
  lemma JoinInjective(p: Path, q: Path)
    requires ValidPath(p) && ValidPath(q)
    requires Join(p) == Join(q) || ManifestPath(p) == ManifestPath(q)
    ensures p == q
  {
    ComponentsOfJoin(p);
    ComponentsOfJoin(q);
  }

  /** `p` is `q` or lies above it. Sequence `<=` is the prefix order. */
  lemma {:induction false} JoinPrefix(p: Path, q: Path)
    requires p <= q
    ensures Join(p) <= Join(q)
    decreases |q|
  {
    if p != q {
      JoinPrefix(p, q[..|q| - 1]);
    }
  }

  lemma TextPrefixOfDescendant(q: Path, p: Path)
    requires q < p
    ensures Join(q) + "/" <= Join(p)
  {
    JoinPrefix(p[..|q| + 1], p);
    assert p[..|q| + 1][..|q|] == q;
  }

  lemma TextPrefixOnlyOfDescendant(q: Path, p: Path)
    requires ValidPath(p) && ValidPath(q)
    requires Join(q) + "/" <= Join(p)
    ensures q < p
  {
    var after := Join(p)[|Join(q)| + 1..];
    assert Join(p) == Join(q) + ("/" + after);
    PiecesOfJoin(q, "/" + after);
    PiecesOfWholePath(p);
    var tail := Pieces(after, "");
    assert ("/" + after)[1..] == after;
    SplitLast(q, tail);
    DropFirst(p, q, tail);
  }

  lemma DropFirst(p: Path, q: Path, tail: Path)
    requires [""] + p == [""] + q + tail
    ensures p == q + tail
  {
    assert ([""] + p)[1..] == p;
    assert ([""] + q + tail)[1..] == q + tail;
  }

  /** "The text starts with `q/`" says exactly that `q` lies strictly above `p`: the
      separator is what keeps `/ab` from counting as below `/a`. */
  lemma TextPrefixIsAncestor(q: Path, p: Path)
    requires ValidPath(p) && ValidPath(q)
    ensures Join(q) + "/" <= Join(p) <==> q < p
  {
    if q < p { TextPrefixOfDescendant(q, p); }
    if Join(q) + "/" <= Join(p) { TextPrefixOnlyOfDescendant(q, p); }
  }
}
