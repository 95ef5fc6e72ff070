/** Template names (`getTmplName`, templates.go:20-27): how the path of a
    template file inside the template tree becomes the name it is parsed
    under and, later, the path of the file it renders to. Paths use `/`
    as in Go's `path` package. */
module TemplateNames {
  import opened Strings

  /** The position of the last `/` among the first `n` characters of
      `p`, or -1 when there is none. */
  function LastSlashBefore(p: string, n: nat): (k: int)
    requires n <= |p|
    ensures -1 <= k < n
    ensures k >= 0 ==> p[k] == '/'
  {
    if n == 0 then -1
    else if p[n - 1] == '/' then n - 1
    else LastSlashBefore(p, n - 1)
  }

  /** The position of the last `/` in `p`, or -1 when there is none. */
  function LastSlash(p: string): (k: int)
    ensures -1 <= k < |p|
    ensures k >= 0 ==> p[k] == '/'
  {
    LastSlashBefore(p, |p|)
  }

  lemma {:induction false} NothingAfterSlashBefore(p: string, n: nat)
    requires n <= |p|
    ensures forall j :: LastSlashBefore(p, n) < j < n ==> p[j] != '/'
    decreases n
  {
    if n > 0 && p[n - 1] != '/' {
      NothingAfterSlashBefore(p, n - 1);
    }
  }

  /** No `/` follows the last one. */
  lemma NothingAfterLastSlash(p: string)
    ensures '/' !in p[LastSlash(p) + 1..]
  {
    NothingAfterSlashBefore(p, |p|);
    var k := LastSlash(p);
    var x := p[k + 1..];
    forall i | 0 <= i < |x|
      ensures x[i] != '/'
    {
      assert x[i] == p[k + 1 + i];
    }
  }

  lemma TakeDrop(p: string, n: nat)
    requires n <= |p|
    ensures p[..n] + p[n..] == p
  {
  }

  /** `path.Split`: splits right after the final `/` into the directory
      and the final element. */
  function SplitPath(p: string): (string, string)
  {
    var k := LastSlash(p);
    (p[..k + 1], p[k + 1..])
  }

  /** The two parts put back together give the path; the directory is
      empty or ends in `/`; the final element holds no `/`. */
  lemma SplitPathParts(p: string)
    ensures SplitPath(p).0 + SplitPath(p).1 == p
    ensures '/' !in SplitPath(p).1
    ensures |SplitPath(p).0| == 0 || SplitPath(p).0[|SplitPath(p).0| - 1] == '/'
  {
    TakeDrop(p, LastSlash(p) + 1);
    NothingAfterLastSlash(p);
  }

  /** Those three properties pin the result of `SplitPath` down. */
  lemma SplitPathUnique(p: string, d: string, x: string)
    requires d + x == p && '/' !in x && (|d| == 0 || d[|d| - 1] == '/')
    ensures SplitPath(p) == (d, x)
  {
    NothingAfterLastSlash(p);
    var k := LastSlash(p);
    if |d| > 0 {
      assert p[|d| - 1] == '/';
      assert p[|d| - 1] !in p[k + 1..] ==> |d| - 1 <= k;
    }
    if k >= 0 {
      assert x == p[|d|..];
      assert p[k] !in x ==> k < |d|;
    }
    assert k == |d| - 1;
  }

  /** The final element of a path ends with any suffix of the path that
      holds no `/`. */
  lemma SuffixInLastSegment(p: string, s: string)
    requires HasSuffix(p, s) && '/' !in s
    ensures HasSuffix(SplitPath(p).1, s)
  {
    SplitPathParts(p);
    var d := SplitPath(p).0;
    var x := SplitPath(p).1;
    if |d| > 0 {
      assert p[|d| - 1] == '/';
      assert forall i :: |p| - |s| <= i < |p| ==> p[i] == s[i - (|p| - |s|)];
      assert |d| - 1 < |p| - |s|;
      assert x == p[|d|..];
    }
  }

  /** A leading `!` (the hidden-file marker) becomes `.`. */
  function Unhide(file: string): string
  {
    if HasPrefix(file, "!") then "." + TrimPrefix(file, "!") else file
  }

  /** `getTmplName`: the directory of `"/" + f` kept as it is, followed by
      the final element with a leading `!` turned into `.` and one trailing
      `.tmpl` removed. */
  function TemplateName(f: string): string
  {
    var parts := SplitPath("/" + f);
    parts.0 + TrimSuffix(Unhide(parts.1), ".tmpl")
  }

  /** A path starting with `/` has a directory starting with `/`. */
  lemma DirStartsWithSlash(g: string)
    requires |g| > 0 && g[0] == '/'
    ensures |SplitPath(g).0| > 0 && SplitPath(g).0[0] == '/'
  {
    NothingAfterSlashBefore(g, |g|);
    assert LastSlash(g) >= 0;
  }

  /** Every name starts with `/`, and only the final element is rewritten:
      directory elements are kept as they are, even when they start with
      `!`. */
  lemma TemplateNameShape(f: string)
    ensures var n := TemplateName(f);
      && |n| > 0 && n[0] == '/'
      && HasPrefix(n, SplitPath("/" + f).0)
      && '/' !in n[|SplitPath("/" + f).0|..]
  {
    var dir := SplitPath("/" + f).0;
    var n := TemplateName(f);
    DirStartsWithSlash("/" + f);
    NameParts(f);
    SplitPathParts(n);
    assert n[|dir|..] == SplitPath(n).1;
    assert n[0] == dir[0];
  }

  /** Dropping the last `k` elements of a concatenation drops them from
      its second part. */
  lemma DropEnd(a: string, b: string, k: nat)
    requires k <= |b|
    ensures (a + b)[..|a + b| - k] == a + b[..|b| - k]
  {
  }

  /** An ordinary template file is named after its path: `/`, then the
      path without `.tmpl`. */
  lemma PlainTemplateName(f: string)
    requires HasSuffix(f, ".tmpl") && !HasPrefix(SplitPath("/" + f).1, "!")
    ensures TemplateName(f) == "/" + f[..|f| - 5]
  {
    TemplateFileSegment(f);
    var dir := SplitPath("/" + f).0;
    var file := SplitPath("/" + f).1;
    assert TemplateName(f) == dir + file[..|file| - 5];
    DropEnd(dir, file, 5);
    DropEnd("/", f, 5);
  }

  /** The hidden-file marker put back: a leading `.` becomes `!`. */
  function Hide(file: string): string
  {
    if HasPrefix(file, ".") then "!" + TrimPrefix(file, ".") else file
  }

  lemma SlashTail(s: string)
    requires |s| > 0 && s[0] == '/'
    ensures "/" + s[1..] == s
  {
  }

  /** The template file a name comes from: the inverse of `TemplateName`. */
  function TemplatePath(n: string): string
    requires |n| > 0 && n[0] == '/'
  {
    var parts := SplitPath(n);
    (parts.0 + Hide(parts.1) + ".tmpl")[1..]
  }

  /** The file is the name's directory, then its final element with the
      marker put back and `.tmpl` added, less the leading `/`. */
  lemma TemplatePathParts(n: string)
    requires |n| > 0 && n[0] == '/'
    ensures "/" + TemplatePath(n) == SplitPath(n).0 + Hide(SplitPath(n).1) + ".tmpl"
  {
    SplitPathParts(n);
    var parts := SplitPath(n);
    assert n[0] in parts.0;
    SlashTail(parts.0 + Hide(parts.1) + ".tmpl");
  }

  /** Putting the marker back adds no `/`. */
  lemma HideNoSlash(file: string)
    requires '/' !in file
    ensures '/' !in Hide(file) + ".tmpl"
  {
    if HasPrefix(file, ".") {
      assert Hide(file) + ".tmpl" == "!" + file[1..] + ".tmpl";
      assert forall c :: c in file[1..] ==> c in file;
    }
  }

  lemma UnhideHide(file: string)
    requires !HasPrefix(file, "!")
    ensures Unhide(Hide(file) + ".tmpl") == file + ".tmpl"
  {
    if HasPrefix(file, ".") {
      var rest := file[1..];
      var y := rest + ".tmpl";
      assert Hide(file) == "!" + rest;
      assert Hide(file) + ".tmpl" == "!" + y by {
        ConcatAssoc("!", rest, ".tmpl");
      }
      assert TrimPrefix("!" + y, "!") == y;
      assert "." + y == file + ".tmpl" by {
        assert "." + rest == file;
        ConcatAssoc(".", rest, ".tmpl");
      }
    } else {
      assert Hide(file) == file;
      assert (file + ".tmpl")[0] != '!';
    }
  }

  lemma HideUnhideTrim(file: string)
    requires HasSuffix(file, ".tmpl") && !HasPrefix(file, ".")
    ensures Hide(TrimSuffix(Unhide(file), ".tmpl")) + ".tmpl" == file
  {
    var body := file[..|file| - 5];
    assert file == body + ".tmpl";
    if HasPrefix(file, "!") {
      assert |body| > 0 && body[0] == '!';
      var u := "." + file[1..];
      assert Unhide(file) == u;
      assert u == "." + body[1..] + ".tmpl";
      assert TrimSuffix(u, ".tmpl") == "." + body[1..];
      assert Hide("." + body[1..]) == "!" + body[1..];
      assert "!" + body[1..] == body;
    } else {
      assert Unhide(file) == file;
      assert TrimSuffix(file, ".tmpl") == body;
      if |body| > 0 {
        assert body[0] == file[0];
      }
      assert Hide(body) == body;
    }
  }

  /** Every name whose final segment does not start with `!` is the name
      of the template file `TemplatePath` gives. */
  lemma NameOfPath(n: string)
    requires |n| > 0 && n[0] == '/'
    requires !HasPrefix(SplitPath(n).1, "!")
    ensures TemplateName(TemplatePath(n)) == n
  {
    SplitPathParts(n);
    TemplatePathParts(n);
    var parts := SplitPath(n);
    var dir := parts.0;
    var file := parts.1;
    assert n[0] in dir;
    assert dir[0] == '/';
    var x := Hide(file) + ".tmpl";
    var f := TemplatePath(n);
    assert "/" + f == dir + x;
    HideNoSlash(file);
    SplitPathUnique("/" + f, dir, x);
    UnhideHide(file);
    assert TrimSuffix(file + ".tmpl", ".tmpl") == file;
  }

  lemma SlashCancels(a: string, b: string)
    requires "/" + a == "/" + b
    ensures a == b
  {
    assert a == ("/" + a)[1..];
  }

  /** Rewriting the final element adds no `/`. */
  lemma RewriteNoSlash(file: string)
    requires '/' !in file
    ensures '/' !in TrimSuffix(Unhide(file), ".tmpl")
  {
    var u := Unhide(file);
    if HasPrefix(file, "!") {
      assert u == "." + file[1..];
      assert forall i :: 1 <= i < |u| ==> u[i] == file[i];
    } else {
      assert u == file;
    }
    assert '/' !in u;
    var t := TrimSuffix(u, ".tmpl");
    assert forall i :: 0 <= i < |t| ==> t[i] == u[i];
  }

  /** The name of a template file splits into the file's directory and
      its rewritten final segment. */
  lemma NameParts(f: string)
    ensures var parts := SplitPath("/" + f);
      SplitPath(TemplateName(f)) == (parts.0, TrimSuffix(Unhide(parts.1), ".tmpl"))
  {
    SplitPathParts("/" + f);
    var parts := SplitPath("/" + f);
    assert ("/" + f)[0] in parts.0;
    var trimmed := TrimSuffix(Unhide(parts.1), ".tmpl");
    RewriteNoSlash(parts.1);
    assert TemplateName(f) == parts.0 + trimmed;
    assert trimmed == TemplateName(f)[|parts.0|..];
    SplitPathUnique(TemplateName(f), parts.0, trimmed);
  }

  /** A template file's final segment carries the `.tmpl` suffix. */
  lemma TemplateFileSegment(f: string)
    requires HasSuffix(f, ".tmpl")
    ensures HasSuffix(SplitPath("/" + f).1, ".tmpl")
    ensures "/" + f == SplitPath("/" + f).0 + SplitPath("/" + f).1
  {
    assert ("/" + f)[|"/" + f| - 5..] == f[|f| - 5..];
    SplitPathParts("/" + f);
    SuffixInLastSegment("/" + f, ".tmpl");
  }

  /** The file recovered from a template file's name: its directory,
      then its rewritten final segment with the marker put back. */
  lemma PathOfNameParts(f: string)
    ensures var parts := SplitPath("/" + f);
      "/" + TemplatePath(TemplateName(f)) == parts.0 + (Hide(TrimSuffix(Unhide(parts.1), ".tmpl")) + ".tmpl")
  {
    var n := TemplateName(f);
    var parts := SplitPath("/" + f);
    var x := Hide(TrimSuffix(Unhide(parts.1), ".tmpl"));
    assert |n| > 0 && n[0] == '/' by {
      TemplateNameShape(f);
    }
    assert SplitPath(n) == (parts.0, TrimSuffix(Unhide(parts.1), ".tmpl")) by {
      NameParts(f);
    }
    assert "/" + TemplatePath(n) == parts.0 + x + ".tmpl" by {
      TemplatePathParts(n);
    }
    ConcatAssoc(parts.0, x, ".tmpl");
  }

  /** Every template file whose final segment does not start with `.` is
      found again from its name. */
  lemma PathOfName(f: string)
    requires HasSuffix(f, ".tmpl")
    requires !HasPrefix(SplitPath("/" + f).1, ".")
    ensures TemplatePath(TemplateName(f)) == f
  {
    TemplateFileSegment(f);
    HideUnhideTrim(SplitPath("/" + f).1);
    PathOfNameParts(f);
    SlashCancels(TemplatePath(TemplateName(f)), f);
  }

  /** The name of a file whose path splits into `dir` and `file`. */
  lemma NameOf(f: string, dir: string, file: string)
    requires "/" + f == dir + file && '/' !in file && |dir| > 0 && dir[|dir| - 1] == '/'
    ensures TemplateName(f) == dir + TrimSuffix(Unhide(file), ".tmpl")
  {
    SplitPathUnique("/" + f, dir, file);
  }

  /** The hidden-file marker makes two files share a name: a top-level
      `!x` and `.x` are both parsed as `/.x` less `.tmpl`, so `!env.tmpl`
      and `.env.tmpl` collide as `/.env`. */
  lemma HiddenMarkerCollides(x: string)
    requires '/' !in x
    ensures TemplateName("!" + x) == TemplateName("." + x) == "/" + TrimSuffix("." + x, ".tmpl")
  {
    NameOf("!" + x, "/", "!" + x);
    NameOf("." + x, "/", "." + x);
    assert ("!" + x)[1..] == x;
    assert Unhide("!" + x) == "." + x;
    assert Unhide("." + x) == "." + x;
  }
}
