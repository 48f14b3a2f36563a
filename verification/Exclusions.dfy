/** The exclusion lists as they ship (crates/mari-core/src/snapshot.rs, crates/marid/src/supervisor.rs)
    and what a revert does with them. In a pattern `*` stands for any text, separators included. */
module Exclusions {
  import opened Basics
  import opened Paths
  import opened Disk
  import opened Manifests
  import opened Snapshots
  import opened Reverts

  predicate Matches(pattern: string, text: string)
    decreases |pattern| + |text|
  {
    if pattern == "" then text == ""
    else if pattern[0] == '*' then Matches(pattern[1..], text) || (text != "" && Matches(pattern, text[1..]))
    else text != "" && text[0] == pattern[0] && Matches(pattern[1..], text[1..])
  }

  predicate Excludes(globs: seq<string>, path: string) {
    exists i :: 0 <= i < |globs| && Matches(globs[i], path)
  }

  function ExcludedBy(globs: seq<string>): string -> bool {
    path => Excludes(globs, path)
  }

  /** Directories that are excluded with their subtrees. */
  const PAIRED: seq<string> := ["*/.aws", "*/.ssh", "*/.config/gcloud", "*/.config/gh", "*/.mari"]

  const SUBTREES: seq<string> := ["*/.aws/*", "*/.ssh/*", "*/.config/gcloud/*", "*/.config/gh/*", "*/.mari/*"]

  /** Patterns meant for files, listed without what is below them. */
  const BARE: seq<string> := ["*/.kube/config", "*/.docker/config.json", "*/.netrc", "*.pem", "*.key"]

  /** All that the supervisor excludes. */
  const SHIPPED: seq<string> := PAIRED + SUBTREES + BARE

  // ---- matching ---------------------------------------------------------------------------

  predicate EndsInStar(pattern: string) {
    pattern != "" && pattern[|pattern| - 1] == '*'
  }

  lemma {:induction false} StarMatches(text: string)
    ensures Matches("*", text)
  {
    if text == "" { assert "*"[1..] == ""; } else { StarMatches(text[1..]); }
  }

  /** What a pattern matches, the pattern with a star at its end matches with anything after. */
  lemma {:induction false} StarGoesOn(pattern: string, text: string, more: string)
    requires EndsInStar(pattern) && Matches(pattern, text)
    ensures Matches(pattern, text + more)
    decreases |pattern| + |text|
  {
    if |pattern| == 1 {
      assert pattern == "*";
      StarMatches(text + more);
    } else if pattern[0] == '*' && Matches(pattern[1..], text) {
      StarGoesOn(pattern[1..], text, more);
    } else {
      StarGoesOn(if pattern[0] == '*' then pattern else pattern[1..], text[1..], more);
      assert (text + more)[1..] == text[1..] + more;
    }
  }

  /** A pattern followed by a separator and a star matches all that is below what it matches. */
  lemma {:induction false} SubtreeMatches(pattern: string, text: string, below: string)
    requires Matches(pattern, text)
    ensures Matches(pattern + "/*", text + "/" + below)
    decreases |pattern| + |text|
  {
    var whole, path := pattern + "/*", text + "/" + below;
    if pattern == "" {
      StarMatches(below);
      assert whole[1..] == "*" && path[1..] == below;
    } else {
      assert whole[1..] == pattern[1..] + "/*";
      if pattern[0] == '*' && Matches(pattern[1..], text) {
        SubtreeMatches(pattern[1..], text, below);
      } else {
        assert path[1..] == text[1..] + "/" + below;
        SubtreeMatches(if pattern[0] == '*' then pattern else pattern[1..], text[1..], below);
      }
    }
  }

  /** Every literal character of a pattern occurs in what it matches. */
  lemma {:induction false} LiteralOccurs(pattern: string, text: string, i: nat)
    requires Matches(pattern, text) && i < |pattern| && pattern[i] != '*'
    ensures pattern[i] in text
    decreases |pattern| + |text|
  {
    if pattern[0] == '*' && Matches(pattern[1..], text) {
      LiteralOccurs(pattern[1..], text, i - 1);
    } else if pattern[0] == '*' {
      LiteralOccurs(pattern, text[1..], i);
    } else if i > 0 {
      LiteralOccurs(pattern[1..], text[1..], i - 1);
    }
  }

  lemma {:induction false} EndsAlike(pattern: string, text: string)
    requires Matches(pattern, text) && pattern != "" && !EndsInStar(pattern)
    ensures text != "" && text[|text| - 1] == pattern[|pattern| - 1]
    decreases |pattern| + |text|
  {
    if pattern[0] == '*' && Matches(pattern[1..], text) {
      EndsAlike(pattern[1..], text);
    } else if pattern[0] == '*' {
      EndsAlike(pattern, text[1..]);
    } else if |pattern| > 1 {
      EndsAlike(pattern[1..], text[1..]);
    }
  }

  // ---- lists that are closed -----------------------------------------------------------------

  /** Every pattern of the list reaches below what it matches, by itself or by a partner. */
  predicate Partnered(globs: seq<string>, pattern: string) {
    EndsInStar(pattern) || pattern + "/*" in globs
  }

  lemma PartneredReachesBelow(globs: seq<string>, pattern: string, z: Path, q: Path)
    requires pattern in globs && Partnered(globs, pattern) && ValidPath(q) && [] < z < q && Matches(pattern, Join(z))
    ensures Excludes(globs, Join(q))
  {
    TextPrefixIsAncestor(z, q);
    var below := Join(q)[|Join(z)| + 1..];
    assert Join(q) == Join(z) + "/" + below;
    if EndsInStar(pattern) {
      StarGoesOn(pattern, Join(z), "/" + below);
      assert Join(q) == Join(z) + ("/" + below);
      var i :| 0 <= i < |globs| && globs[i] == pattern;
    } else {
      SubtreeMatches(pattern, Join(z), below);
      var i :| 0 <= i < |globs| && globs[i] == pattern + "/*";
    }
  }

  /** A list that does not exclude the root is closed under going down if all its patterns are
      partnered, and so a revert with it spares everything the snapshot skips. */
  lemma PartneredIsClosed(globs: seq<string>)
    requires forall p :: p in globs ==> Partnered(globs, p)
    requires !Excludes(globs, "/")
    ensures SubtreeClosed(ExcludedBy(globs))
  {
    hide Matches;
    var excl := ExcludedBy(globs);
    forall q | ValidPath(q) && q != [] && Hidden(excl, q) ensures excl(Join(q)) {
      var z :| z <= q && excl(ManifestPath(z));
      if z != q {
        var i :| 0 <= i < |globs| && Matches(globs[i], ManifestPath(z));
        PartneredReachesBelow(globs, globs[i], z, q);
      }
    }
  }

  // ---- the shipped list -------------------------------------------------------------------------

  lemma ShippedSpellings()
    ensures |PAIRED| == |SUBTREES| && forall i :: 0 <= i < |PAIRED| ==> PAIRED[i] + "/*" == SUBTREES[i]
    ensures forall i :: 0 <= i < |SUBTREES| ==> EndsInStar(SUBTREES[i])
    ensures forall i :: 0 <= i < |SHIPPED| ==> |SHIPPED[i]| > 2 && (SHIPPED[i][1] == '.' || SHIPPED[i][2] == '.')
  {
  }

  lemma ShippedSparesRoot()
    ensures !Excludes(SHIPPED, "/")
  {
    ShippedSpellings();
    hide Matches;
    if Excludes(SHIPPED, "/") {
      var i :| 0 <= i < |SHIPPED| && Matches(SHIPPED[i], "/");
      LiteralOccurs(SHIPPED[i], "/", if SHIPPED[i][1] == '.' then 1 else 2);
    }
  }

  lemma PartneredOrBare(pattern: string)
    requires pattern in SHIPPED
    ensures Partnered(SHIPPED, pattern) || pattern in BARE
  {
    ShippedSpellings();
    if pattern in PAIRED {
      var i :| 0 <= i < |PAIRED| && PAIRED[i] == pattern;
      assert SUBTREES[i] in SHIPPED;
    }
  }

  /** What the snapshot skips and the revert does not spare, with the list as shipped: all that
      is below a directory with the name of a credential file and matches nothing itself. */
  lemma ShippedGapsIff(q: Path)
    ensures Gap(ExcludedBy(SHIPPED), q) <==>
      ValidPath(q) && !Excludes(SHIPPED, ManifestPath(q)) && exists z :: z < q && Excludes(BARE, ManifestPath(z))
  {
    hide Matches, SHIPPED, PAIRED, SUBTREES, BARE;
    ShippedSparesRoot();
    var excl := ExcludedBy(SHIPPED);
    if Gap(excl, q) {
      var z :| z <= q && excl(ManifestPath(z));
      assert |z| == |q| ==> z == q;
      var i :| 0 <= i < |SHIPPED| && Matches(SHIPPED[i], ManifestPath(z));
      var pattern := SHIPPED[i];
      PartneredOrBare(pattern);
      if pattern in BARE {
        var j :| 0 <= j < |BARE| && BARE[j] == pattern;
        assert Matches(BARE[j], ManifestPath(z));
        assert Excludes(BARE, ManifestPath(z));
      } else {
        PartneredReachesBelow(SHIPPED, pattern, z, q);
      }
    }
    if ValidPath(q) && !Excludes(SHIPPED, ManifestPath(q)) && exists z :: z < q && Excludes(BARE, ManifestPath(z)) {
      var z :| z < q && Excludes(BARE, ManifestPath(z));
      BareIsShipped(ManifestPath(z));
      assert z <= q && excl(ManifestPath(z));
    }
  }

  lemma BareIsShipped(path: string)
    requires Excludes(BARE, path)
    ensures Excludes(SHIPPED, path)
  {
    hide Matches;
    var i :| 0 <= i < |BARE| && Matches(BARE[i], path);
    assert SHIPPED[|PAIRED| + |SUBTREES| + i] == BARE[i];
  }

  /** A character of each pattern that "/x.pem/x" has not, except "*.pem", which ends otherwise. */
  lemma KeyDirChildIsFree()
    ensures !Excludes(SHIPPED, "/x.pem/x")
  {
    var path := "/x.pem/x";
    if Excludes(SHIPPED, path) {
      var i :| 0 <= i < |SHIPPED| && Matches(SHIPPED[i], path);
      var at := Telling(i);
      hide Matches;
      if i == 13 { EndsAlike("*.pem", path); } else { LiteralOccurs(SHIPPED[i], path, at); }
    }
  }

  /** Where a pattern has a character that is not in "/x.pem/x". */
  lemma Telling(i: nat) returns (at: nat)
    requires i < |SHIPPED|
    ensures i == 13 ==> SHIPPED[i] == "*.pem"
    ensures i != 13 ==> at < |SHIPPED[i]| && SHIPPED[i][at] != '*' && SHIPPED[i][at] !in "/x.pem/x"
  {
    at := if i == 4 || i == 9 then 4 else if i == 14 then 2 else 3;
  }

  /** The shipped list is not closed: of a tree that holds a directory "/x.pem" with a directory
      in it, a snapshot and an immediate revert destroy the inner one. */
  lemma ShippedListLoses()
    ensures !SubtreeClosed(ExcludedBy(SHIPPED))
    ensures var q, excl := ["x.pem", "x"], ExcludedBy(SHIPPED);
      && Rooted(Chain(q), 0) && At(Chain(q), 0, q).IsDir? && Hidden(excl, q)
      && Revertible(Chain(q), Chain(q), 0, excl)
      && forall nodes2 :: Back(Chain(q), Chain(q), nodes2, 0, excl) ==> At(nodes2, 0, q).Absent?
  {
    hide SHIPPED, Matches, Chain, Rooted, At, Revertible, Back;
    var q, excl := ["x.pem", "x"], ExcludedBy(SHIPPED);
    KeyDirIsGap();
    UnclosedLoses(excl, q);
  }

  lemma KeyDirIsGap()
    ensures Gap(ExcludedBy(SHIPPED), ["x.pem", "x"])
  {
    var q, z: Path := ["x.pem", "x"], ["x.pem"];
    assert q[..1] == z && z[..0] == [];
    assert Join(z) == "/x.pem" && Join(q) == "/x.pem/x";
    KeyDirChildIsFree();
    assert Matches("*.pem", "/x.pem") by { KeyDirMatches(); }
    assert BARE[3] == "*.pem";
    hide Matches, SHIPPED;
    assert z < q && Excludes(BARE, ManifestPath(z));
    ShippedGapsIff(q);
  }

  lemma KeyDirMatches()
    ensures Matches("*.pem", "/x.pem")
  {
    assert Matches(".pem", ".pem");
    assert "/x.pem"[1..] == "x.pem" && "x.pem"[1..] == ".pem" && "*.pem"[1..] == ".pem";
    assert Matches("*.pem", ".pem") && Matches("*.pem", "x.pem");
  }
}
