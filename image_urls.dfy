/** Building image-link URLs from the row-8 template URL with the pattern
    `(http://[^/]+/)([^/]+/)([^.]+)(\..+)$`, searched as `re.search` does:
    the first start position at which the pattern matches wins. */
module ImageUrls {
  import opened Options
  import opened Text
  import opened Sheets

  const Scheme := "http://"
  const DefaultBase := "http://geyishuma.com/"
  const DefaultPrefix := "GYFGCX0031GYFGCX0060/"

  /** The four groups of a match. */
  datatype UrlMatch = UrlMatch(base: string, prefix: string, stem: string, suffix: string)

  /** `http://[^/]+/` */
  predicate IsBase(b: string) {
    |b| >= 9 && b[..7] == Scheme && b[|b| - 1] == '/' && forall j | 7 <= j < |b| - 1 :: b[j] != '/'
  }

  /** `[^/]+/` */
  predicate IsPrefix(p: string) {
    |p| >= 2 && p[|p| - 1] == '/' && forall j | 0 <= j < |p| - 1 :: p[j] != '/'
  }

  /** `[^.]+` */
  predicate IsStem(t: string) {
    |t| >= 1 && '.' !in t
  }

  /** `\..+`, where `.` does not match a newline. */
  predicate IsSuffix(x: string) {
    |x| >= 2 && x[0] == '.' && '\n' !in x
  }

  predicate Shaped(m: UrlMatch) {
    IsBase(m.base) && IsPrefix(m.prefix) && IsStem(m.stem) && IsSuffix(m.suffix)
  }

  function Joined(m: UrlMatch): string {
    m.base + m.prefix + m.stem + m.suffix
  }

  /** The pattern matches `s` from position `i` with groups `m`; `$` matches at
      the end of `s` or just before a newline that ends it. */
  predicate MatchesAt(s: string, i: int, m: UrlMatch) {
    0 <= i <= |s| && Shaped(m) && (s[i..] == Joined(m) || s[i..] == Joined(m) + "\n")
  }

  /** The matcher at one start position. Each group is determined: `[^/]+/`
      must run to the next `/`, `[^.]+` to the next `.`, and `.+` to the next
      newline, after which `$` must hold. */
  function MatchAt(s: string, i: nat): Option<UrlMatch>
    requires i <= |s|
  {
    if !(i + 7 <= |s| && s[i..i + 7] == Scheme) then None
    else
      var b := IndexOfFrom(s, '/', i + 7);
      if b == i + 7 || b == |s| then None
      else
        var c := IndexOfFrom(s, '/', b + 1);
        if c == b + 1 || c == |s| then None
        else
          var d := IndexOfFrom(s, '.', c + 1);
          if d == c + 1 || d == |s| then None
          else
            var n := IndexOfFrom(s, '\n', d + 1);
            if n == d + 1 || n < |s| - 1 then None
            else Some(UrlMatch(s[i..b + 1], s[b + 1..c + 1], s[c + 1..d], s[d..n]))
  }

  /** The cut points of a match from `i`: the `/` closing the host at `b`, the
      `/` closing the folder at `c`, the first `.` of the file name at `d`, and
      the end `n` of the match. */
  predicate Cuts(s: string, i: int, b: int, c: int, d: int, n: int) {
    && 0 <= i && i + 8 <= b && b + 2 <= c && c + 2 <= d && d + 2 <= n <= |s|
    && s[i..i + 7] == Scheme
    && s[b] == '/' && (forall j | i + 7 <= j < b :: s[j] != '/')
    && s[c] == '/' && (forall j | b < j < c :: s[j] != '/')
    && s[d] == '.' && (forall j | c < j < d :: s[j] != '.')
    && (forall j | d < j < n :: s[j] != '\n')
    && (n == |s| || (n == |s| - 1 && s[n] == '\n'))
  }

  function GroupsAt(s: string, i: int, b: int, c: int, d: int, n: int): UrlMatch
    requires 0 <= i <= b < c < d < n <= |s|
  {
    UrlMatch(s[i..b + 1], s[b + 1..c + 1], s[c + 1..d], s[d..n])
  }

  /** The groups between the cut points are shaped as the pattern says. */
  lemma CutsShaped(s: string, i: int, b: int, c: int, d: int, n: int)
    requires Cuts(s, i, b, c, d, n)
    ensures Shaped(GroupsAt(s, i, b, c, d, n))
  {
    var m := GroupsAt(s, i, b, c, d, n);
    assert m.base[..7] == s[i..i + 7];
    assert m.suffix[1..] == s[d + 1..n];
  }

  /** The four groups between the cut points make up `s[i..]`, up to a final newline. */
  lemma CutsJoin(s: string, i: int, b: int, c: int, d: int, n: int)
    requires Cuts(s, i, b, c, d, n)
    ensures s[i..] == Joined(GroupsAt(s, i, b, c, d, n)) || s[i..] == Joined(GroupsAt(s, i, b, c, d, n)) + "\n"
  {
    var m := GroupsAt(s, i, b, c, d, n);
    assert s[i..c + 1] == m.base + m.prefix;
    assert s[i..d] == m.base + m.prefix + m.stem;
    assert s[i..n] == Joined(m);
    assert s[i..] == s[i..n] + s[n..];
    if n == |s| - 1 {
      assert s[n..] == "\n";
    } else {
      assert s[n..] == [];
    }
  }

  /** The matcher succeeds exactly at cut points, and returns the groups between them. */
  lemma {:induction false} CutsMatchAt(s: string, i: nat, b: int, c: int, d: int, n: int)
    requires Cuts(s, i, b, c, d, n)
    ensures MatchAt(s, i) == Some(GroupsAt(s, i, b, c, d, n))
  {
    IndexIs(s, '/', i + 7, b);
    IndexIs(s, '/', b + 1, c);
    IndexIs(s, '.', c + 1, d);
    IndexIs(s, '\n', d + 1, n);
    MatchAtIndices(s, i, b, c, d, n);
  }

  /** The matcher's result once the positions of the three separators and of
      the end are known. */
  lemma MatchAtIndices(s: string, i: nat, b: nat, c: nat, d: nat, n: nat)
    requires i + 8 <= b && b + 2 <= c && c + 2 <= d && d + 2 <= n && (n == |s| || n == |s| - 1)
    requires s[i..i + 7] == Scheme
    requires IndexOfFrom(s, '/', i + 7) == b && IndexOfFrom(s, '/', b + 1) == c
    requires IndexOfFrom(s, '.', c + 1) == d && IndexOfFrom(s, '\n', d + 1) == n
    ensures MatchAt(s, i) == Some(GroupsAt(s, i, b, c, d, n))
  {
  }

  /** `k` is the first index from `from` on holding `ch`, or `|s|` when there is none. */
  lemma IndexIs(s: string, ch: char, from: nat, k: nat)
    requires from <= k <= |s| && (k < |s| ==> s[k] == ch)
    requires forall j | from <= j < k :: s[j] != ch
    ensures IndexOfFrom(s, ch, from) == k
  {
  }

  /** What the matcher finds is a match of the pattern. */
  lemma {:induction false} MatchAtSound(s: string, i: nat)
    requires i <= |s| && MatchAt(s, i).Some?
    ensures MatchesAt(s, i, MatchAt(s, i).value)
  {
    var b := IndexOfFrom(s, '/', i + 7);
    var c := IndexOfFrom(s, '/', b + 1);
    var d := IndexOfFrom(s, '.', c + 1);
    var n := IndexOfFrom(s, '\n', d + 1);
    assert Cuts(s, i, b, c, d, n);
    CutsMatchAt(s, i, b, c, d, n);
    CutsShaped(s, i, b, c, d, n);
    CutsJoin(s, i, b, c, d, n);
  }

  /** Every match of the pattern is what the matcher finds. */
  lemma {:induction false} MatchAtComplete(s: string, i: nat, m: UrlMatch)
    requires MatchesAt(s, i, m)
    ensures MatchAt(s, i) == Some(m)
  {
    var u := Joined(m);
    assert s[i..i + |u|] == u;
    var b := i + |m.base| - 1;
    var c := b + |m.prefix|;
    var d := c + 1 + |m.stem|;
    var n := i + |u|;
    MatchCuts(s, i, m, u, b, c, d, n);
    MatchGroups(s, i, m, u, b, c, d, n);
    CutsMatchAt(s, i, b, c, d, n);
  }

  lemma MatchGroups(s: string, i: nat, m: UrlMatch, u: string, b: int, c: int, d: int, n: int)
    requires MatchesAt(s, i, m) && u == Joined(m)
    requires b == i + |m.base| - 1 && c == b + |m.prefix| && d == c + 1 + |m.stem| && n == i + |u|
    ensures 0 <= i <= b < c < d < n <= |s| && GroupsAt(s, i, b, c, d, n) == m
  {
    assert s[i..i + |u|] == u;
    JoinedGroups(s, i, m, u, b, c, d, n);
  }

  lemma JoinedGroups(s: string, i: nat, m: UrlMatch, u: string, b: int, c: int, d: int, n: int)
    requires u == Joined(m) && i + |u| <= |s| && s[i..i + |u|] == u && |m.base| >= 1
    requires |m.prefix| >= 1 && |m.stem| >= 1 && |m.suffix| >= 1
    requires b == i + |m.base| - 1 && c == b + |m.prefix| && d == c + 1 + |m.stem| && n == i + |u|
    ensures 0 <= i <= b < c < d < n <= |s| && GroupsAt(s, i, b, c, d, n) == m
  {
    var p := |m.base|;
    var q := p + |m.prefix|;
    var t := q + |m.stem|;
    SliceOf(s, i, u, 0, p);
    assert u[0..p] == m.base;
    SliceOf(s, i, u, p, q);
    assert u[p..q] == m.prefix;
    SliceOf(s, i, u, q, t);
    assert u[q..t] == m.stem;
    SliceOf(s, i, u, t, |u|);
    assert u[t..] == m.suffix;
  }

  /** A slice of `s` inside a stretch that spells `u` is the matching slice of `u`. */
  lemma SliceOf(s: string, i: nat, u: string, a: nat, e: nat)
    requires i + |u| <= |s| && s[i..i + |u|] == u && a <= e <= |u|
    ensures s[i + a..i + e] == u[a..e]
  {
    forall t | 0 <= t < e - a ensures s[i + a..i + e][t] == u[a..e][t] {
      assert s[i + a + t] == s[i..i + |u|][a + t];
    }
  }

  lemma MatchCuts(s: string, i: nat, m: UrlMatch, u: string, b: int, c: int, d: int, n: int)
    requires MatchesAt(s, i, m) && u == Joined(m)
    requires b == i + |m.base| - 1 && c == b + |m.prefix| && d == c + 1 + |m.stem| && n == i + |u|
    ensures Cuts(s, i, b, c, d, n)
  {
    assert s[i..i + |u|] == u;
    assert s[i..i + 7] == m.base[..7];
    forall j | i + 7 <= j < b ensures s[j] != '/' {
      assert s[j] == m.base[j - i];
    }
    assert s[b] == m.base[|m.base| - 1];
    forall j | b < j < c ensures s[j] != '/' {
      assert s[j] == m.prefix[j - b - 1];
    }
    assert s[c] == m.prefix[|m.prefix| - 1];
    forall j | c < j < d ensures s[j] != '.' {
      assert s[j] == m.stem[j - c - 1];
    }
    assert s[d] == m.suffix[0];
    forall j | d < j < n ensures s[j] != '\n' {
      assert s[j] == m.suffix[j - d];
    }
    if n < |s| {
      assert s[i..] == u + "\n";
      assert s[n] == '\n';
    }
  }

  /** A match and the position it starts at. */
  datatype Found = Found(at: nat, groups: UrlMatch)

  /** Trying the start positions `from, from + 1, ..., last` in turn, where
      `at(j)` is the matcher's result at position `j`. */
  function SearchFrom(at: nat -> Option<UrlMatch>, from: nat, last: nat): (r: Option<Found>)
    ensures r.Some? ==> from <= r.value.at <= last && at(r.value.at) == Some(r.value.groups)
    decreases last + 1 - from
  {
    if from > last then None
    else
      match at(from)
      case Some(m) => Some(Found(from, m))
      case None => SearchFrom(at, from + 1, last)
  }

  /** The search returns the first start position from `from` on at which
      the matcher succeeds: it fails at every position it passes over. */
  lemma {:induction false} SearchFromSkips(at: nat -> Option<UrlMatch>, from: nat, last: nat)
    ensures SearchFrom(at, from, last).Some? ==> forall j | from <= j < SearchFrom(at, from, last).value.at :: at(j).None?
    ensures SearchFrom(at, from, last).None? ==> forall j | from <= j <= last :: at(j).None?
    decreases last + 1 - from
  {
    if from <= last && at(from).None? {
      SearchFromSkips(at, from + 1, last);
    }
  }

  /** The matcher's result at each start position of `s`. */
  function MatcherOn(s: string): nat -> Option<UrlMatch> {
    (j: nat) => if j <= |s| then MatchAt(s, j) else None
  }

  /** `re.search(pattern, s)`: the match that starts leftmost, or `None`. */
  function Search(s: string): (r: Option<Found>)
    ensures r.Some? ==> MatchesAt(s, r.value.at, r.value.groups)
    ensures r.Some? ==> forall j, m | 0 <= j < r.value.at :: !MatchesAt(s, j, m)
    ensures r.None? ==> forall j, m | 0 <= j <= |s| :: !MatchesAt(s, j, m)
  {
    SearchFromZero(s);
    SearchFrom(MatcherOn(s), 0, |s|)
  }

  lemma SearchFromZero(s: string)
    ensures SearchFrom(MatcherOn(s), 0, |s|).Some? ==>
              MatchesAt(s, SearchFrom(MatcherOn(s), 0, |s|).value.at, SearchFrom(MatcherOn(s), 0, |s|).value.groups)
    ensures forall j, m | 0 <= j <= |s| && (SearchFrom(MatcherOn(s), 0, |s|).None? || j < SearchFrom(MatcherOn(s), 0, |s|).value.at) ::
              !MatchesAt(s, j, m)
  {
    var r := SearchFrom(MatcherOn(s), 0, |s|);
    if r.Some? {
      FoundMatches(s, r.value);
    }
    SearchFromSkips(MatcherOn(s), 0, |s|);
    forall j, m | 0 <= j <= |s| && (r.None? || j < r.value.at) ensures !MatchesAt(s, j, m) {
      NoMatchAt(s, j, m);
    }
  }

  lemma FoundMatches(s: string, f: Found)
    requires f.at <= |s| && MatcherOn(s)(f.at) == Some(f.groups)
    ensures MatchesAt(s, f.at, f.groups)
  {
    assert MatcherOn(s)(f.at) == MatchAt(s, f.at);
    MatchAtSound(s, f.at);
  }

  lemma NoMatchAt(s: string, j: nat, m: UrlMatch)
    requires j <= |s| && MatcherOn(s)(j).None?
    ensures !MatchesAt(s, j, m)
  {
    assert MatcherOn(s)(j) == MatchAt(s, j);
    if MatchesAt(s, j, m) {
      MatchAtComplete(s, j, m);
    }
  }

  /** The folder part of a new link: the first two groups of the template URL's
      match, or the hard-coded folder when the template is not a non-empty
      string or does not match. */
  function FolderParts(template: Cell): (p: (string, string))
    ensures IsBase(p.0) && IsPrefix(p.1)
  {
    DefaultFolderShaped();
    match template
    case Text(u) =>
      if u != "" && Search(u).Some? then (Search(u).value.groups.base, Search(u).value.groups.prefix)
      else (DefaultBase, DefaultPrefix)
    case _ => (DefaultBase, DefaultPrefix)
  }

  function Folder(template: Cell): string {
    FolderParts(template).0 + FolderParts(template).1
  }

  lemma DefaultFolderShaped()
    ensures IsBase(DefaultBase) && IsPrefix(DefaultPrefix)
  {
    assert DefaultBase[..7] == Scheme;
  }

  /** `.MAIN.jpg` for the first image column, `.PTnn.jpg` for the others. */
  function ImageSuffix(k: nat): (x: string)
    ensures IsSuffix(x)
  {
    if k == 0 then ".MAIN.jpg"
    else
      var d := Format02d(k);
      DigitsAreNotDotOrNewline(d);
      ".PT" + d + ".jpg"
  }

  /** The link written into image column `k` of a row with SKU `sku`. */
  function ImageUrl(template: Cell, sku: string, k: nat): string {
    Folder(template) + sku + ImageSuffix(k)
  }

  /** A link built from a folder and a SKU that is non-empty, does not start
      with `.` and holds no newline matches the pattern from its first
      character, with the folder as its first two groups. */
  lemma {:induction false} RebuiltUrlMatches(base: string, prefix: string, sku: string, x: string)
    requires IsBase(base) && IsPrefix(prefix) && IsSuffix(x)
    requires sku != [] && sku[0] != '.' && '\n' !in sku
    ensures Search(base + prefix + sku + x).Some?
    ensures Search(base + prefix + sku + x).value.groups.base == base
    ensures Search(base + prefix + sku + x).value.groups.prefix == prefix
  {
    var u := base + prefix + sku + x;
    var j := IndexOfFrom(sku, '.', 0);
    var m := UrlMatch(base, prefix, sku[..j], sku[j..] + x);
    assert sku[..j] + (sku[j..] + x) == sku + x;
    assert Joined(m) == u;
    assert '\n' !in sku[j..] + x by {
      forall t | 0 <= t < |sku[j..] + x| ensures (sku[j..] + x)[t] != '\n' {
        if t < |sku| - j {
          assert (sku[j..] + x)[t] == sku[j + t];
        } else {
          assert (sku[j..] + x)[t] == x[t - (|sku| - j)];
        }
      }
    }
    assert (sku[j..] + x)[0] == '.';
    assert '.' !in sku[..j];
    assert u[0..] == u;
    assert MatchesAt(u, 0, m);
    MatchAtComplete(u, 0, m);
    assert MatcherOn(u)(0) == Some(m);
    assert SearchFrom(MatcherOn(u), 0, |u|) == Some(Found(0, m));
  }

  /** Rebuilding a link from an already rebuilt link keeps the folder: once
      row 8 holds the new link of its own SKU, the later rows, which read
      their template from row 8, still get the original template's folder,
      provided row 8's new SKU is non-empty, does not start with `.` and holds
      no newline. */
  lemma {:induction false} RowEightRebuildKeepsFolder(template: Cell, sku8: string, sku: string, k: nat)
    requires sku8 != [] && sku8[0] != '.' && '\n' !in sku8
    ensures Folder(Text(ImageUrl(template, sku8, k))) == Folder(template)
    ensures ImageUrl(Text(ImageUrl(template, sku8, k)), sku, k) == ImageUrl(template, sku, k)
  {
    var (base, prefix) := FolderParts(template);
    var x := ImageSuffix(k);
    assert ImageUrl(template, sku8, k) == base + prefix + sku8 + x;
    RebuiltUrlMatches(base, prefix, sku8, x);
  }
}
