/** The attestor's comparison of two Git trees, from parsed JSON to the sorted list of guarded changes. */
module FrozenTrees {
  import opened Basics
  import Text

  // ---------- Documents ----------

  datatype Json =
    | Null
    | Bool(truth: bool)
    | Number(value: int)
    | Str(text: string)
    | Arr(items: seq<Json>)
    | Obj(fields: map<string, Json>)

  function Field(o: Json, name: string): Json {
    if o.Obj? && name in o.fields then o.fields[name] else Null
  }

  function Items(d: Json): seq<Json> { if Field(d, "tree").Arr? then Field(d, "tree").items else [] }

  datatype Signature = Signature(mode: string, kind: string, sha: string)

  type Tree = map<string, Signature>

  datatype Entry = Entry(path: string, signature: Signature)

  predicate ExactSha1(s: string) {
    |s| == 40 && forall i :: 0 <= i < 40 ==> '0' <= s[i] <= '9' || 'a' <= s[i] <= 'f'
  }

  predicate ValidModeType(mode: string, kind: string) {
    (mode, kind) in {
      ("040000", "tree"), ("100644", "blob"), ("100755", "blob"), ("120000", "blob"), ("160000", "commit")}
  }

  function Utf8Length(s: string): nat {
    if s == "" then 0 else
    var c := s[0] as int;
    (if c < 0x80 then 1 else if c < 0x800 then 2 else if c < 0x10000 then 3 else 4) + Utf8Length(s[1..])
  }

  /** Encoded length adds up over the text; ASCII takes one byte a character, and no character more than four. */
  lemma {:induction false} Utf8Lengths(s: string, t: string)
    ensures Utf8Length(s + t) == Utf8Length(s) + Utf8Length(t)
    ensures |s| <= Utf8Length(s) <= 4 * |s|
    ensures Utf8Length(s) == |s| <==> forall i :: 0 <= i < |s| ==> s[i] as int < 128
    ensures (forall i :: 0 <= i < |s| ==> 128 <= s[i] as int < 2048) ==> Utf8Length(s) == 2 * |s|
    ensures (forall i :: 0 <= i < |s| ==> 2048 <= s[i] as int < 65536) ==> Utf8Length(s) == 3 * |s|
    ensures (forall i :: 0 <= i < |s| ==> 65536 <= s[i] as int) ==> Utf8Length(s) == 4 * |s|
  {
    if s == "" {
      assert s + t == t;
    } else {
      Utf8Lengths(s[1..], t);
      assert (s + t)[1..] == s[1..] + t;
      assert forall i :: 0 <= i < |s[1..]| ==> s[1..][i] == s[i + 1];
      assert forall i :: 1 <= i < |s| ==> s[i] == s[1..][i - 1];
    }
  }

  predicate IsControl(c: char) { c as int <= 0x1f || 0x7f <= c as int <= 0x9f }

  predicate ValidPath(path: string) {
    && 0 < Utf8Length(path) <= 4096
    && path != "" && path[0] != '/' && path[|path| - 1] != '/'
    && (forall i :: 0 <= i < |path| ==> !IsControl(path[i]))
    && (forall i :: 0 <= i < |Text.Split(path, '/')| ==> Text.Split(path, '/')[i] !in ["", ".", ".."])
  }

  /** One raw tree entry, if it is well formed. */
  function EntryOf(raw: Json): Option<Entry> {
    var path, mode, kind, sha := Field(raw, "path"), Field(raw, "mode"), Field(raw, "type"), Field(raw, "sha");
    if raw.Obj? && path.Str? && ValidPath(path.text) && mode.Str? && kind.Str? && ValidModeType(mode.text, kind.text)
       && sha.Str? && ExactSha1(sha.text)
    then Some(Entry(path.text, Signature(mode.text, kind.text, sha.text))) else None
  }

  /** A raw entry the attestor accepts, field by field. */
  predicate WellFormed(raw: Json) {
    && raw.Obj?
    && Field(raw, "path").Str? && ValidPath(Field(raw, "path").text)
    && (Field(raw, "mode"), Field(raw, "type")) in {
         (Str("040000"), Str("tree")), (Str("100644"), Str("blob")), (Str("100755"), Str("blob")),
         (Str("120000"), Str("blob")), (Str("160000"), Str("commit"))}
    && Field(raw, "sha").Str? && |Field(raw, "sha").text| == 40
    && (forall i :: 0 <= i < 40 ==>
          '0' <= Field(raw, "sha").text[i] <= '9' || 'a' <= Field(raw, "sha").text[i] <= 'f')
  }

  lemma EntryIsWellFormed(raw: Json)
    ensures EntryOf(raw).Some? <==> WellFormed(raw)
  {
  }

  /** The tree has this raw entry under its path, with its mode, type and object hash. */
  predicate Carries(tree: Tree, raw: Json) {
    && Field(raw, "path").Str? && Field(raw, "path").text in tree
    && var g := tree[Field(raw, "path").text];
       Field(raw, "mode") == Str(g.mode) && Field(raw, "type") == Str(g.kind) && Field(raw, "sha") == Str(g.sha)
  }

  /** The tree is that of these raw entries: all of them, and nothing else. */
  ghost predicate TreeOf(tree: Tree, items: seq<Json>) {
    && (forall i :: 0 <= i < |items| ==> Carries(tree, items[i]))
    && (forall path :: path in tree ==> exists i :: 0 <= i < |items| && Field(items[i], "path") == Str(path))
  }

  function Entries(raw: seq<Json>): (entries: seq<Option<Entry>>)
    ensures |entries| == |raw| && forall i :: 0 <= i < |raw| ==> entries[i] == EntryOf(raw[i])
  {
    seq(|raw|, i requires 0 <= i < |raw| => EntryOf(raw[i]))
  }

  predicate AllWellFormed(entries: seq<Option<Entry>>) { forall i :: 0 <= i < |entries| ==> entries[i].Some? }

  predicate DistinctPaths(entries: seq<Option<Entry>>)
    requires AllWellFormed(entries)
  {
    forall i, j :: 0 <= i < j < |entries| ==> entries[i].value.path != entries[j].value.path
  }

  predicate ValidDocument(d: Json) {
    && d.Obj? && Field(d, "truncated") == Bool(false) && Field(d, "tree").Arr? && |Field(d, "tree").items| <= 100_000
    && AllWellFormed(Entries(Field(d, "tree").items)) && DistinctPaths(Entries(Field(d, "tree").items))
  }

  /** A tree holds exactly the entries listed: each under its own path, and nothing else. */
  predicate Lists(tree: Tree, entries: seq<Option<Entry>>)
    requires AllWellFormed(entries)
  {
    && (forall i :: 0 <= i < |entries| ==>
          entries[i].value.path in tree && tree[entries[i].value.path] == entries[i].value.signature)
    && (forall path :: path in tree ==> exists i :: 0 <= i < |entries| && entries[i].value.path == path)
  }

  datatype Refusal = Refusal(reason: string)

  /** The loop over the entries: it stops at the first malformed or repeated one. */
  method CollectEntries(entries: seq<Option<Entry>>) returns (r: Result<Tree, Refusal>)
    ensures r.Ok? <==> AllWellFormed(entries) && DistinctPaths(entries)
    ensures r.Ok? ==> Lists(r.value, entries)
  {
    var result: Tree := map[];
    var index := 0;
    while index < |entries|
      invariant 0 <= index <= |entries|
      invariant AllWellFormed(entries[..index]) && DistinctPaths(entries[..index])
      invariant Lists(result, entries[..index])
    {
      var e := entries[index];
      if e.None? {
        return Err(Refusal("malformed entry"));
      }
      if e.value.path in result {
        assert exists i :: 0 <= i < index && entries[..index][i].value.path == e.value.path;
        return Err(Refusal("duplicate path"));
      }
      result := result[e.value.path := e.value.signature];
      assert entries[..index + 1] == entries[..index] + [e];
      assert forall i :: 0 <= i < index ==> entries[..index + 1][i] == entries[..index][i];
      index := index + 1;
      assert entries[..index][index - 1] == e;
    }
    assert entries[..index] == entries;
    r := Ok(result);
  }

  /** The loop's conditions, in terms of the raw entries. */
  lemma RawEntries(items: seq<Json>)
    ensures AllWellFormed(Entries(items)) <==> forall i :: 0 <= i < |items| ==> WellFormed(items[i])
    ensures AllWellFormed(Entries(items)) ==>
              && (forall i :: 0 <= i < |items| ==> Field(items[i], "path") == Str(Entries(items)[i].value.path))
              && (DistinctPaths(Entries(items)) <==>
                    forall i, j :: 0 <= i < j < |items| ==> Field(items[i], "path") != Field(items[j], "path"))
  {
    forall i | 0 <= i < |items| ensures Entries(items)[i].Some? <==> WellFormed(items[i]) {
      EntryIsWellFormed(items[i]);
    }
  }

  /** What is accepted, in terms of the raw document. */
  lemma ValidDocuments(d: Json)
    ensures ValidDocument(d) <==>
              && d.Obj? && Field(d, "truncated") == Bool(false) && Field(d, "tree").Arr? && |Items(d)| <= 100_000
              && (forall i :: 0 <= i < |Items(d)| ==> WellFormed(Items(d)[i]))
              && (forall i, j :: 0 <= i < j < |Items(d)| ==> Field(Items(d)[i], "path") != Field(Items(d)[j], "path"))
  {
    if Field(d, "tree").Arr? {
      RawEntries(Items(d));
    }
  }

  method ValidatedTree(d: Json) returns (r: Result<Tree, Refusal>)
    ensures r.Ok? <==> ValidDocument(d)
    ensures r.Ok? ==> Lists(r.value, Entries(Field(d, "tree").items))
    // Each raw entry is carried over whole, and nothing else is.
    ensures r.Ok? ==> TreeOf(r.value, Items(d))
  {
    if Field(d, "tree").Arr? {
      RawEntries(Field(d, "tree").items);
    }
    if !d.Obj? {
      return Err(Refusal("not a string-keyed object"));
    }
    if Field(d, "truncated") != Bool(false) {
      return Err(Refusal("truncated"));
    }
    if !Field(d, "tree").Arr? || |Field(d, "tree").items| > 100_000 {
      return Err(Refusal("too many entries"));
    }
    r := CollectEntries(Entries(Field(d, "tree").items));
  }

  // ---------- Frozen paths ----------

  const FROZEN_ROOTS := [".github", "api", "build", "codegen", "scripts", "security", "vendor"]

  const FROZEN_FILES := {
    ".gitattributes", ".gitignore", ".gitmodules", ".goreleaser.debug.yaml", ".goreleaser.yaml", "CODEOWNERS",
    "SECURITY.md", "UPSTREAM.md", "docs/CODEOWNERS", "docs/trusted-attestor.md", "go.mod", "go.sum", "go.work",
    "go.work.sum", "main.go", "package.json", "package-lock.json", "pnpm-lock.yaml", "tools.go", "tsconfig.json",
    "yarn.lock"}

  const FROZEN_NAMES := {"go.mod", "go.sum", "go.work", "go.work.sum", "tools.go"}

  const FIXTURE_DIRECTORIES := {"testdata", "fixtures", "test-fixtures", "test_fixtures", "golden", "snapshots"}

  const BUILD_FILES := {"Dockerfile", "Makefile", "GNUmakefile", "Taskfile.yml", "Taskfile.yaml"}

  const SCRIPT_SUFFIXES := [".sh", ".bash", ".zsh", ".py", ".rb", ".pl", ".ps1"]

  predicate EndsWith(s: string, suffix: string) {
    |suffix| <= |s| && s[|s| - |suffix|..] == suffix
  }

  /** The base name is one of these names, or some component one of these directories. */
  predicate ByComponent(path: string, names: set<string>, directories: set<string>) {
    var components := Text.Split(path, '/');
    || components[|components| - 1] in names
    || exists i :: 0 <= i < |components| && components[i] in directories
  }

  /** `Dockerfile` with any suffix or prefix. */
  predicate IsDockerfile(path: string) {
    var components := Text.Split(path, '/');
    "Dockerfile." <= components[|components| - 1] || EndsWith(components[|components| - 1], ".Dockerfile")
  }

  /** Single files, file endings, and everything below the frozen roots. */
  predicate ByWholePath(path: string) {
    || path in FROZEN_FILES || path == "docs/security-bootstrap.md" || path == "docs/security-custom-config.md"
    || EndsWith(path, "_test.go") || (exists i :: 0 <= i < |SCRIPT_SUFFIXES| && EndsWith(path, SCRIPT_SUFFIXES[i]))
    || (exists i :: 0 <= i < |FROZEN_ROOTS| && (path == FROZEN_ROOTS[i] || FROZEN_ROOTS[i] + "/" <= path))
  }

  predicate IsFrozenPath(path: string) {
    || ByWholePath(path) || IsDockerfile(path)
    || ByComponent(path, FROZEN_NAMES + BUILD_FILES, FIXTURE_DIRECTORIES)
  }

  // ---------- Paths as text ----------

  /** At this position of the text, the component stands between slashes. */
  predicate BetweenSlashes(path: string, c: string, k: nat) {
    k + |c| + 2 <= |path| && path[k..k + |c| + 2] == "/" + c + "/"
  }

  /** The text has this as a component after its first one. */
  predicate LaterComponent(path: string, c: string) {
    EndsWith(path, "/" + c) || exists k: nat :: k < |path| && BetweenSlashes(path, c, k)
  }

  predicate FirstComponent(path: string, c: string) { path == c || c + "/" <= path }

  lemma LaterAfterOne(ch: char, tail: string, c: string)
    requires LaterComponent(tail, c)
    ensures LaterComponent([ch] + tail, c)
  {
    var path := [ch] + tail;
    if EndsWith(tail, "/" + c) {
      assert path[|path| - |c| - 1..] == tail[|tail| - |c| - 1..];
    } else {
      var k: nat :| k < |tail| && BetweenSlashes(tail, c, k);
      assert path[k + 1..k + 1 + |c| + 2] == tail[k..k + |c| + 2];
      assert BetweenSlashes(path, c, k + 1);
    }
  }

  lemma LaterAfterSlash(tail: string, c: string)
    requires FirstComponent(tail, c)
    ensures LaterComponent("/" + tail, c)
  {
    var path := "/" + tail;
    if tail == c {
      assert path[|path| - |c| - 1..] == path;
    } else {
      assert path[0..0 + |c| + 2] == "/" + tail[..|c| + 1];
      assert BetweenSlashes(path, c, 0);
    }
  }

  lemma {:induction false} ComponentAppears(path: string, i: nat)
    requires i < |Text.Split(path, '/')|
    ensures var c := Text.Split(path, '/')[i]; if i == 0 then FirstComponent(path, c) else LaterComponent(path, c)
  {
    if path != "" {
      var tail := path[1..];
      assert path == [path[0]] + tail;
      if path[0] == '/' {
        if i > 0 {
          ComponentAppears(tail, i - 1);
          var c := Text.Split(tail, '/')[i - 1];
          if i == 1 { LaterAfterSlash(tail, c); } else { LaterAfterOne('/', tail, c); }
        }
      } else {
        ComponentAppears(tail, i);
        if i > 0 { LaterAfterOne(path[0], tail, Text.Split(tail, '/')[i]); }
      }
    }
  }

  lemma FirstAppears(path: string, c: string)
    requires '/' !in c && FirstComponent(path, c)
    ensures c in Text.Split(path, '/')
  {
    if path == c {
      Text.SplitAlone(c, '/');
    } else {
      var rest := path[|c| + 1..];
      assert path == c + "/" + rest;
      Text.SplitFirst(c, rest, '/');
      assert Text.Split(path, '/')[0] == c;
    }
  }

  lemma SlashThenFirst(path: string, c: string) returns (k: nat)
    requires LaterComponent(path, c)
    ensures k < |path| && path[k] == '/' && FirstComponent(path[k + 1..], c)
  {
    if EndsWith(path, "/" + c) {
      k := |path| - |c| - 1;
      assert path[k..] == "/" + c;
      assert path[k] == path[k..][0];
      assert path[k + 1..] == path[k..][1..];
    } else {
      k :| k < |path| && BetweenSlashes(path, c, k);
      var piece := path[k..k + |c| + 2];
      assert path[k] == piece[0];
      assert path[k + 1..][..|c| + 1] == piece[1..];
      assert c + "/" <= path[k + 1..];
    }
  }

  lemma LaterAppears(path: string, c: string)
    requires '/' !in c && LaterComponent(path, c)
    ensures c in Text.Split(path, '/')
  {
    var k := SlashThenFirst(path, c);
    var before, rest := path[..k], path[k + 1..];
    assert path == before + "/" + rest;
    Text.SplitConcat(before, rest, '/');
    FirstAppears(rest, c);
  }

  /** A directory or file name is a component of a path exactly if it stands between slashes or the ends of the text. */
  lemma ComponentsAreBetweenSlashes(path: string, c: string)
    requires '/' !in c
    ensures c in Text.Split(path, '/') <==> FirstComponent(path, c) || LaterComponent(path, c)
  {
    if c in Text.Split(path, '/') {
      var i :| 0 <= i < |Text.Split(path, '/')| && Text.Split(path, '/')[i] == c;
      ComponentAppears(path, i);
    }
    if FirstComponent(path, c) {
      FirstAppears(path, c);
    } else if LaterComponent(path, c) {
      LaterAppears(path, c);
    }
  }

  /** The base name is what follows the last slash, if there is one. */
  lemma {:induction false} BaseNameFollowsLastSlash(path: string)
    ensures var parts := Text.Split(path, '/');
            var name := parts[|parts| - 1];
            '/' !in name && (path == name || EndsWith(path, "/" + name))
  {
    if path != "" {
      var tail := path[1..];
      BaseNameFollowsLastSlash(tail);
      var parts := Text.Split(tail, '/');
      var name := parts[|parts| - 1];
      if path[0] == '/' || |parts| > 1 {
        if tail == name {
          Text.SplitAlone(name, '/');
          assert path == "/" + name;
          assert EndsWith(path, "/" + name) by { assert path[0..] == path; }
        } else {
          assert path[|path| - |name| - 1..] == tail[|tail| - |name| - 1..];
        }
      } else {
        assert tail == name by { Text.JoinSplit(tail, '/'); }
      }
    }
  }

  predicate HasComponent(path: string, c: string) { FirstComponent(path, c) || LaterComponent(path, c) }

  /** A file of this name, at the top or in any directory. */
  predicate NamedAnywhere(path: string, name: string) { path == name || EndsWith(path, "/" + name) }

  lemma BaseNameIs(path: string, name: string)
    requires '/' !in name
    ensures var parts := Text.Split(path, '/'); parts[|parts| - 1] == name <==> NamedAnywhere(path, name)
  {
    if !NamedAnywhere(path, name) {
      BaseNameFollowsLastSlash(path);
    } else if path == name {
      Text.SplitAlone(name, '/');
    } else if EndsWith(path, "/" + name) {
      var front := path[..|path| - |name| - 1];
      assert path == front + "/" + name;
      Text.SplitConcat(front, name, '/');
      Text.SplitAlone(name, '/');
    }
  }

  lemma NamesHoldNoSlash(name: string)
    requires name in FIXTURE_DIRECTORIES || name in FROZEN_NAMES || name in BUILD_FILES
    ensures '/' !in name
  {
  }

  /** Directories count at any depth, and so do the names of files. */
  predicate ByText(path: string, names: set<string>, directories: set<string>) {
    || (exists name :: name in names && NamedAnywhere(path, name))
    || (exists dir :: dir in directories && HasComponent(path, dir))
  }

  lemma ComponentsAreText(path: string, names: set<string>, directories: set<string>)
    requires forall name :: name in names || name in directories ==> '/' !in name
    ensures ByComponent(path, names, directories) <==> ByText(path, names, directories)
  {
    var parts := Text.Split(path, '/');
    forall name | name in names ensures parts[|parts| - 1] == name <==> NamedAnywhere(path, name) {
      BaseNameIs(path, name);
    }
    forall dir | dir in directories ensures dir in parts <==> HasComponent(path, dir) {
      ComponentsAreBetweenSlashes(path, dir);
    }
    if dir :| dir in directories && HasComponent(path, dir) {
      assert dir in parts;
    }
  }

  lemma FrozenNamesAreText(path: string)
    ensures ByComponent(path, FROZEN_NAMES + BUILD_FILES, FIXTURE_DIRECTORIES) <==>
              ByText(path, FROZEN_NAMES + BUILD_FILES, FIXTURE_DIRECTORIES)
  {
    forall name | name in FROZEN_NAMES + BUILD_FILES || name in FIXTURE_DIRECTORIES ensures '/' !in name {
      NamesHoldNoSlash(name);
    }
    ComponentsAreText(path, FROZEN_NAMES + BUILD_FILES, FIXTURE_DIRECTORIES);
  }

  /** Which paths are frozen by the names on them, said of the text of the path alone. */
  lemma FrozenPaths(path: string)
    ensures IsFrozenPath(path) <==>
              || ByWholePath(path) || IsDockerfile(path)
              || ByText(path, FROZEN_NAMES + BUILD_FILES, FIXTURE_DIRECTORIES)
  {
    FrozenNamesAreText(path);
  }

  /** The two checks for outer slashes are implied: a path is valid if its length, characters and components are. */
  lemma ValidPaths(path: string)
    ensures ValidPath(path) <==>
              && Utf8Length(path) <= 4096
              && (forall i :: 0 <= i < |path| ==> 32 <= path[i] as int < 127 || 160 <= path[i] as int)
              && "" !in Text.Split(path, '/') && "." !in Text.Split(path, '/') && ".." !in Text.Split(path, '/')
  {
    var parts := Text.Split(path, '/');
    if path == "" {
      assert parts[0] == "";
    } else if path[0] == '/' {
      assert parts[0] == "";
    } else if path[|path| - 1] == '/' {
      var front := path[..|path| - 1];
      assert path == front + "/" + "";
      Text.SplitConcat(front, "", '/');
      assert parts[|parts| - 1] == "";
    }
  }

  // ---------- Trust roots ----------

  // Names below `scripts/`.
  const EXECUTABLE_SCRIPTS := {
    "check-go-dependency-boundary.sh", "check-codeql-sarif.py", "check-trusted-attestor-workflow.sh",
    "check-workflow-policy.sh", "check-workflow-structure.rb", "generate-api.sh",
    "trusted_attestor.py", "tests/check-debian11-systemd-vm.sh", "tests/check-codeql-sarif_test.py",
    "tests/check-govuln-policy_test.sh", "tests/check-trusted-attestor-policy_test.sh",
    "tests/check-workflow-policy_test.sh", "tests/test-systemd-lifecycle.sh", "tests/trusted_attestor_test.py"}

  const REQUIRED_EXECUTABLE := set name | name in EXECUTABLE_SCRIPTS :: "scripts/" + name

  const REQUIRED_PLAIN := {
    ".github/workflows/ci.yml", ".github/workflows/codeql.yml", ".github/workflows/trusted-attestor.yml",
    "scripts/check-go-dependency-boundary.go", "scripts/govuln-policy.go", "security/govuln-allowlist.txt",
    "docs/trusted-attestor.md"}

  predicate HasTrustRoots(tree: Tree) {
    && (forall path :: path in REQUIRED_EXECUTABLE ==>
         path in tree && tree[path].mode == "100755" && tree[path].kind == "blob")
    && (forall path :: path in REQUIRED_PLAIN ==>
         path in tree && tree[path].mode == "100644" && tree[path].kind == "blob")
  }

  lemma UnderFrozenRoot(path: string, i: nat)
    requires i < |FROZEN_ROOTS| && FROZEN_ROOTS[i] + "/" <= path
    ensures IsFrozenPath(path)
  {
  }

  lemma PlainRootsAreFrozen(path: string)
    requires path in REQUIRED_PLAIN
    ensures IsFrozenPath(path)
  {
    if path == "security/govuln-allowlist.txt" {
      UnderFrozenRoot(path, 5);
    } else if path == "scripts/check-go-dependency-boundary.go" || path == "scripts/govuln-policy.go" {
      UnderFrozenRoot(path, 4);
    } else if path != "docs/trusted-attestor.md" {
      UnderFrozenRoot(path, 0);
    }
  }

  /** Every required trust root is itself a frozen path. */
  lemma TrustRootsAreFrozen(path: string)
    requires path in REQUIRED_EXECUTABLE || path in REQUIRED_PLAIN
    ensures IsFrozenPath(path)
  {
    if path in REQUIRED_PLAIN {
      PlainRootsAreFrozen(path);
    } else {
      var name :| name in EXECUTABLE_SCRIPTS && path == "scripts/" + name;
      UnderFrozenRoot(path, 4);
    }
  }

  // ---------- Comparison ----------

  function Get(tree: Tree, path: string): Option<Signature> {
    if path in tree then Some(tree[path]) else None
  }

  predicate Dangerous(s: Option<Signature>) {
    s.Some? && s.value.mode in {"100755", "120000", "160000"}
  }

  /** The comparison's own test for one path. */
  predicate GuardedChange(base: Tree, head: Tree, path: string) {
    var before, after := Get(base, path), Get(head, path);
    && before != after
    && (IsFrozenPath(path) || Dangerous(before) || Dangerous(after)
        || (before.Some? && after.Some? && before.value.kind != after.value.kind))
  }

  predicate Before(a: string, b: string) {
    if b == "" then false
    else if a == "" then true
    else if a[0] != b[0] then a[0] < b[0]
    else Before(a[1..], b[1..])
  }

  predicate Ascending(s: seq<string>) { forall i, j :: 0 <= i < j < |s| ==> Before(s[i], s[j]) }

  lemma {:induction false} BeforeTransitive(a: string, b: string, c: string)
    requires Before(a, b) && Before(b, c)
    ensures Before(a, c)
  {
    if a != "" && a[0] == b[0] && b[0] == c[0] {
      BeforeTransitive(a[1..], b[1..], c[1..]);
    }
  }

  lemma {:induction false} BeforeTotal(a: string, b: string)
    ensures Before(a, b) || Before(b, a) || a == b
  {
    if a != "" && b != "" && a[0] == b[0] {
      BeforeTotal(a[1..], b[1..]);
      assert a == [a[0]] + a[1..] && b == [b[0]] + b[1..];
    }
  }

  /** Insertion into an ascending list. */
  method Insert(s: seq<string>, x: string) returns (r: seq<string>)
    requires Ascending(s) && x !in s
    ensures Ascending(r) && |r| == |s| + 1
    ensures forall y :: y in r <==> y in s || y == x
  {
    var k := 0;
    while k < |s| && Before(s[k], x)
      invariant 0 <= k <= |s|
      invariant forall i :: 0 <= i < k ==> Before(s[i], x)
    {
      k := k + 1;
    }
    r := s[..k] + [x] + s[k..];
    if k < |s| {
      BeforeTotal(s[k], x);
      assert s[k] in s;
      forall j | k < j < |s| ensures Before(x, s[j]) {
        BeforeTransitive(x, s[k], s[j]);
      }
    }
  }

  /** Visits the paths in any order, appends those that pass the test, and sorts. */
  method CollectAscending(paths: set<string>, test: string -> bool) returns (r: seq<string>)
    ensures Ascending(r) && forall path :: path in r <==> path in paths && test(path)
  {
    r := [];
    var rest := paths;
    while rest != {}
      invariant rest <= paths
      invariant Ascending(r)
      invariant forall path :: path in r <==> path in paths - rest && test(path)
      decreases |rest|
    {
      var path :| path in rest;
      rest := rest - {path};
      if test(path) {
        r := Insert(r, path);
      }
    }
  }

  /** The guarded changes between two validated trees, in ascending order and without repetition. */
  method GuardedChanges(base: Tree, head: Tree) returns (changed: seq<string>)
    ensures Ascending(changed) && forall path :: path in changed <==> GuardedChange(base, head, path)
    // The simple comparison that this refines.
    ensures changed == [] <==> SimplySame(base, head)
  {
    changed := CollectAscending(base.Keys + head.Keys, path => GuardedChange(base, head, path));
    NoGuardedChange(base, head);
    if changed != [] {
      assert changed[0] in changed;
    }
  }

  predicate RunsOrLinks(raw: Json) {
    Field(raw, "mode") in {Str("100755"), Str("120000"), Str("160000")}
  }

  /** An entry that may neither appear nor disappear unnoticed. */
  predicate Sensitive(raw: Json) {
    Field(raw, "path").Str? && (IsFrozenPath(Field(raw, "path").text) || RunsOrLinks(raw))
  }

  /** A change between two entries of one path that may not go unnoticed. */
  predicate Reported(before: Json, after: Json) {
    && Field(before, "path").Str?
    && (|| Field(before, "mode") != Field(after, "mode") || Field(before, "type") != Field(after, "type")
        || Field(before, "sha") != Field(after, "sha"))
    && (|| IsFrozenPath(Field(before, "path").text) || RunsOrLinks(before) || RunsOrLinks(after)
        || Field(before, "type") != Field(after, "type"))
  }

  predicate Absent(items: seq<Json>, raw: Json) {
    forall i :: 0 <= i < |items| ==> Field(items[i], "path") != Field(raw, "path")
  }

  lemma ReportedPair(base: Tree, head: Tree, before: Json, after: Json)
    requires Carries(base, before) && Carries(head, after) && Field(before, "path") == Field(after, "path")
    ensures GuardedChange(base, head, Field(before, "path").text) <==> Reported(before, after)
  {
  }

  lemma ReportedAlone(tree: Tree, other: Tree, raw: Json)
    requires Carries(tree, raw) && Field(raw, "path").text !in other
    ensures GuardedChange(tree, other, Field(raw, "path").text) <==> Sensitive(raw)
    ensures GuardedChange(other, tree, Field(raw, "path").text) <==> Sensitive(raw)
  {
  }

  lemma AbsentIsNotInTree(tree: Tree, items: seq<Json>, raw: Json)
    requires TreeOf(tree, items) && Absent(items, raw) && Field(raw, "path").Str?
    ensures Field(raw, "path").text !in tree
  {
  }

  /** Which raw entries a report names: for a path in both documents, in the old one only, and in the new one only. */
  ghost predicate ReportsExactly(report: seq<string>, olds: seq<Json>, news: seq<Json>) {
    && (forall i, j :: 0 <= i < |olds| && 0 <= j < |news| && Field(olds[i], "path") == Field(news[j], "path") ==>
          Field(olds[i], "path").Str? && (Field(olds[i], "path").text in report <==> Reported(olds[i], news[j])))
    && (forall i :: 0 <= i < |olds| && Absent(news, olds[i]) ==>
          Field(olds[i], "path").Str? && (Field(olds[i], "path").text in report <==> Sensitive(olds[i])))
    && (forall j :: 0 <= j < |news| && Absent(olds, news[j]) ==>
          Field(news[j], "path").Str? && (Field(news[j], "path").text in report <==> Sensitive(news[j])))
  }

  lemma GuardedIsReported(report: seq<string>, olds: seq<Json>, news: seq<Json>, base: Tree, head: Tree)
    requires TreeOf(base, olds) && TreeOf(head, news)
    requires forall path :: path in report <==> GuardedChange(base, head, path)
    ensures ReportsExactly(report, olds, news)
  {
    forall i, j | 0 <= i < |olds| && 0 <= j < |news| && Field(olds[i], "path") == Field(news[j], "path")
      ensures Field(olds[i], "path").Str? && (Field(olds[i], "path").text in report <==> Reported(olds[i], news[j]))
    {
      ReportedPair(base, head, olds[i], news[j]);
    }
    forall i | 0 <= i < |olds| && Absent(news, olds[i])
      ensures Field(olds[i], "path").Str? && (Field(olds[i], "path").text in report <==> Sensitive(olds[i]))
    {
      AbsentIsNotInTree(head, news, olds[i]);
      ReportedAlone(base, head, olds[i]);
    }
    forall j | 0 <= j < |news| && Absent(olds, news[j])
      ensures Field(news[j], "path").Str? && (Field(news[j], "path").text in report <==> Sensitive(news[j]))
    {
      AbsentIsNotInTree(base, olds, news[j]);
      ReportedAlone(head, base, news[j]);
    }
  }

  /** The comparison of two validated trees, with the raw entries they came from. */
  method CompareTrees(base: Tree, head: Tree, ghost olds: seq<Json>, ghost news: seq<Json>)
    returns (r: Result<seq<string>, Refusal>)
    requires TreeOf(base, olds) && TreeOf(head, news)
    ensures r.Ok? <==> HasTrustRoots(base) && HasTrustRoots(head)
    ensures r.Ok? ==> Ascending(r.value) && forall path :: path in r.value <==> GuardedChange(base, head, path)
    ensures r.Ok? ==> (r.value == [] <==> SimplySame(base, head))
    ensures r.Ok? ==> ReportsExactly(r.value, olds, news)
  {
    if !HasTrustRoots(base) || !HasTrustRoots(head) {
      return Err(Refusal("missing or unsafe trust roots"));
    }
    var changed := GuardedChanges(base, head);
    GuardedIsReported(changed, olds, news, base, head);
    r := Ok(changed);
  }

  method CompareFrozenTrees(baseDocument: Json, headDocument: Json)
    returns (r: Result<seq<string>, Refusal>, base: Tree, head: Tree)
    ensures ValidDocument(baseDocument) && ValidDocument(headDocument) ==>
              && Lists(base, Entries(Field(baseDocument, "tree").items))
              && Lists(head, Entries(Field(headDocument, "tree").items))
    ensures r.Ok? <==>
              ValidDocument(baseDocument) && ValidDocument(headDocument) && HasTrustRoots(base) && HasTrustRoots(head)
    ensures r.Ok? ==> Ascending(r.value) && forall path :: path in r.value <==> GuardedChange(base, head, path)
    ensures r.Ok? ==> (r.value == [] <==> SimplySame(base, head))
    // In terms of the raw documents.
    ensures r.Ok? ==> ReportsExactly(r.value, Items(baseDocument), Items(headDocument))
  {
    base, head := map[], map[];
    var b := ValidatedTree(baseDocument);
    if b.Err? {
      return Err(b.error), base, head;
    }
    var h := ValidatedTree(headDocument);
    if h.Err? {
      return Err(h.error), base, head;
    }
    base, head := b.value, h.value;
    r := CompareTrees(base, head, Items(baseDocument), Items(headDocument));
  }

  function FrozenPart(tree: Tree): Tree { map path | path in tree && IsFrozenPath(path) :: tree[path] }

  /** Executables, symlinks and gitlinks. */
  function DangerousPart(tree: Tree): Tree {
    map path | path in tree && tree[path].mode in {"100755", "120000", "160000"} :: tree[path]
  }

  /** Equal frozen restrictions, equal executable, symlink and gitlink entries, and no path of another type. */
  predicate SimplySame(base: Tree, head: Tree) {
    && FrozenPart(base) == FrozenPart(head)
    && DangerousPart(base) == DangerousPart(head)
    && forall path :: path in base && path in head ==> base[path].kind == head[path].kind
  }

  lemma NoGuardedChange(base: Tree, head: Tree)
    ensures SimplySame(base, head) <==> forall path :: !GuardedChange(base, head, path)
  {
    if SimplySame(base, head) {
      forall path ensures !GuardedChange(base, head, path) {
        assert path in FrozenPart(base) <==> path in FrozenPart(head);
        assert path in DangerousPart(base) <==> path in DangerousPart(head);
        assert path in FrozenPart(base) ==> FrozenPart(base)[path] == FrozenPart(head)[path];
        assert path in DangerousPart(base) ==> DangerousPart(base)[path] == DangerousPart(head)[path];
      }
    }
    if forall path :: !GuardedChange(base, head, path) {
      forall path ensures path in FrozenPart(base) <==> path in FrozenPart(head) {
        assert !GuardedChange(base, head, path);
      }
      forall path ensures path in DangerousPart(base) <==> path in DangerousPart(head) {
        assert !GuardedChange(base, head, path);
      }
      forall path | path in base && path in head ensures base[path].kind == head[path].kind {
        assert !GuardedChange(base, head, path);
      }
      forall path | path in FrozenPart(base) ensures FrozenPart(base)[path] == FrozenPart(head)[path] {
        assert !GuardedChange(base, head, path);
      }
      forall path | path in DangerousPart(base) ensures DangerousPart(base)[path] == DangerousPart(head)[path] {
        assert !GuardedChange(base, head, path);
      }
    }
  }

  /** So if nothing guarded changed, every trust root is the same object in both trees. */
  lemma UnchangedTrustRoots(base: Tree, head: Tree, path: string)
    requires SimplySame(base, head) && HasTrustRoots(base)
    requires path in REQUIRED_EXECUTABLE || path in REQUIRED_PLAIN
    ensures path in base && path in head && base[path] == head[path] && base[path].kind == "blob"
    ensures base[path].mode == if path in REQUIRED_EXECUTABLE then "100755" else "100644"
  {
    TrustRootsAreFrozen(path);
    NoGuardedChange(base, head);
    assert !GuardedChange(base, head, path);
  }

  // ---------- Paginated fetch ----------

  const PER_PAGE := 100

  function Concat<T>(pages: nat -> seq<T>, k: nat): seq<T> {
    if k == 0 then [] else Concat(pages, k - 1) + pages(k)
  }

  /** The page at which a reader who stops at a page that is not full stops. */
  predicate FirstShort<T>(pages: nat -> seq<T>, k: nat) {
    k >= 1 && |pages(k)| < PER_PAGE && forall j: nat :: 1 <= j < k ==> |pages(j)| >= PER_PAGE
  }

  lemma {:induction false} ConcatGrows<T>(pages: nat -> seq<T>, j: nat, k: nat)
    requires j <= k
    ensures |Concat(pages, j)| <= |Concat(pages, k)|
  {
    if j < k {
      ConcatGrows(pages, j, k - 1);
    }
  }

  /**
    Whatever the server answers: the result is every page up to the first short one, and there is a
    result exactly when that page is within the limit and all of them together are not too large.
   */
  method PaginatedArray<T>(pages: nat -> seq<T>, maximumPages: nat) returns (r: Result<seq<T>, Refusal>)
    ensures r.Ok? <==>
              exists k: nat ::
                k <= maximumPages && FirstShort(pages, k) && |Concat(pages, k)| <= maximumPages * PER_PAGE
    ensures forall k: nat :: r.Ok? && FirstShort(pages, k) ==> r.value == Concat(pages, k)
  {
    var values: seq<T> := [];
    var page := 1;
    while page <= maximumPages
      invariant 1 <= page <= maximumPages + 1
      invariant values == Concat(pages, page - 1)
      invariant forall k: nat :: 1 <= k < page ==> |pages(k)| >= PER_PAGE
    {
      var current := pages(page);
      values := values + current;
      if |values| > maximumPages * PER_PAGE {
        forall k: nat | FirstShort(pages, k) ensures |Concat(pages, k)| > maximumPages * PER_PAGE {
          ConcatGrows(pages, page, k);
        }
        return Err(Refusal("too large"));
      }
      if |current| < PER_PAGE {
        assert FirstShort(pages, page);
        return Ok(values);
      }
      page := page + 1;
    }
    r := Err(Refusal("exceeded the pagination limit"));
  }

  function Cut(n: nat, page: nat): nat { if page * PER_PAGE < n then page * PER_PAGE else n }

  /** What a server answers from a list that does not change. */
  function PageOf<T>(list: seq<T>, page: nat): seq<T> {
    if page == 0 then [] else list[Cut(|list|, page - 1)..Cut(|list|, page)]
  }

  lemma {:induction false} ConcatPages<T>(list: seq<T>, pages: nat -> seq<T>, k: nat)
    requires forall p: nat :: pages(p) == PageOf(list, p)
    ensures Concat(pages, k) == list[..Cut(|list|, k)]
  {
    if k > 0 {
      ConcatPages(list, pages, k - 1);
    }
  }

  /** An unchanging list is returned whole if it has fewer than 100 items per allowed page, and refused otherwise. */
  method FetchUnchanging<T>(list: seq<T>, maximumPages: nat) returns (r: Result<seq<T>, Refusal>)
    ensures |list| < maximumPages * 100 ==> r == Ok(list)
    ensures |list| >= maximumPages * 100 ==> r.Err?
  {
    var pages := (p: nat) => PageOf(list, p);
    r := PaginatedArray(pages, maximumPages);
    if |list| < maximumPages * PER_PAGE {
      var full := |list| / PER_PAGE + 1;
      ConcatPages(list, pages, full);
      assert full <= maximumPages && Cut(|list|, full) == |list|;
      assert FirstShort(pages, full);
      assert list[..|list|] == list;
    } else {
      forall k: nat | k <= maximumPages ensures !FirstShort(pages, k) {
        assert k >= 1 ==> Cut(|list|, k) - Cut(|list|, k - 1) == PER_PAGE;
      }
    }
  }
}
