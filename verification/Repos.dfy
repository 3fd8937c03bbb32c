/** `Hubctl::Repos`: the pure parts of the repository commands — the type
    filter passed to the listing calls, the topic edit (`topics --add/--remove/--set`),
    the numbered topic listing, and the `git clone` command line with its
    default target directory. The API calls and `system` are left to the
    caller: their results are parameters here. */
module Repos {
  import opened Common

  // ---------------------------------------------------------------------
  // Listing
  // ---------------------------------------------------------------------

  /** The `type:` argument of the listing calls: 'all' is sent as nil
      (no filter); every other choice is sent unchanged. */
  function TypeParam(repoType: string): (r: Option<string>)
    ensures r.None? <==> repoType == "all"
    ensures r.Some? ==> r.value == repoType
  {
    if repoType == "all" then None else Some(repoType)
  }

  // ---------------------------------------------------------------------
  // Topics
  // ---------------------------------------------------------------------

  /** The `--add`, `--remove` and `--set` array options (`--set` as `replace`); an option given
      with no words is present (and truthy) but empty. */
  datatype TopicsRequest = TopicsRequest(
    add: Option<seq<string>>,
    remove: Option<seq<string>>,
    replace: Option<seq<string>>)
  {
    /** Whether the command edits topics rather than listing them. */
    predicate Edits() {
      add.Some? || remove.Some? || replace.Some?
    }
  }

  /** The current topics followed by the added ones, without the removed
      ones, each kept once (`concat`, `-=`, `uniq!`). The result is fully
      determined: exactly the surviving topics, once each, in the order they
      first occur. */
  function EditTopics(current: seq<string>, add: seq<string>, remove: seq<string>): (r: seq<string>)
    ensures NoDups(r)
    ensures forall t :: t in r <==> (t in current || t in add) && t !in remove
    ensures forall i, j :: 0 <= i < j < |r| ==>
              r[i] in current + add && r[j] in current + add &&
              FirstPos(current + add, r[i]) < FirstPos(current + add, r[j])
  {
    var r := Uniq(Without(current + add, remove));
    UniqWithoutOrder(current + add, remove, r);
    EditMembers(current, add, remove);
    r
  }

  lemma EditMembers(current: seq<string>, add: seq<string>, remove: seq<string>)
    ensures forall t :: t in Uniq(Without(current + add, remove)) <==> (t in current || t in add) && t !in remove
  {
    var w := Without(current + add, remove);
    forall t
      ensures t in Uniq(w) <==> (t in current || t in add) && t !in remove
    {
      assert t in Uniq(w) <==> t in w;
      assert t in current + add <==> t in current || t in add;
    }
  }

  /** `uniq` after `-` lists survivors in the order they first occur in
      the input. */
  lemma UniqWithoutOrder(s: seq<string>, xs: seq<string>, r: seq<string>)
    requires r == Uniq(Without(s, xs))
    ensures forall i, j :: 0 <= i < j < |r| ==>
              r[i] in s && r[j] in s && FirstPos(s, r[i]) < FirstPos(s, r[j])
  {
    var w := Without(s, xs);
    forall i, j | 0 <= i < j < |r|
      ensures r[i] in s && r[j] in s && FirstPos(s, r[i]) < FirstPos(s, r[j])
    {
      assert FirstPos(w, r[i]) < FirstPos(w, r[j]);
      FilterKeepsFirstOrder(s, NotIn(xs), r[i], r[j]);
    }
  }

  /** The topic list an edit sends to `replace_all_topics`: the `--set`
      words verbatim, or else the edit of the current topics. */
  function NewTopics(current: seq<string>, req: TopicsRequest): (r: seq<string>)
    ensures req.replace.Some? ==> r == req.replace.value
    ensures req.replace.None? ==> r == EditTopics(current, req.add.GetOr([]), req.remove.GetOr([]))
  {
    if req.replace.Some? then req.replace.value
    else EditTopics(current, req.add.GetOr([]), req.remove.GetOr([]))
  }

  /** Repeating the same `--add`/`--remove` edit changes nothing more. */
  lemma {:induction false} NewTopicsIdempotent(current: seq<string>, req: TopicsRequest)
    ensures NewTopics(NewTopics(current, req), req) == NewTopics(current, req)
  {
    if req.replace.None? {
      var add := req.add.GetOr([]);
      var remove := req.remove.GetOr([]);
      var r := NewTopics(current, req);
      FilterConcat(r, add, NotIn(remove));
      FilterAll(r, NotIn(remove));
      assert Without(r + add, remove) == r + Without(add, remove);
      UniqAbsorbs(r, Without(add, remove));
    }
  }

  /** A topic named in both `--add` and `--remove` ends up absent. */
  lemma RemoveWinsOverAdd(current: seq<string>, req: TopicsRequest, t: string)
    requires req.replace.None? && req.remove.Some? && t in req.remove.value
    ensures t !in NewTopics(current, req)
  {
  }

  /** What `topics REPO` does with the repository's current topics (nil read as []). */
  datatype TopicsOutcome =
    | Replaced(topics: seq<string>, summary: string)
    | NoTopics
    | Listed(rows: seq<(int, string)>)

  const TopicsSeparator := ", "

  /** Rows `[i, topic]` numbered from 1, as `map.with_index(1)` builds them. */
  function NumberedTopics(topics: seq<string>): (rows: seq<(int, string)>)
    ensures |rows| == |topics|
    ensures forall i :: 0 <= i < |rows| ==> rows[i] == (i + 1, topics[i])
    decreases |topics|
  {
    if |topics| == 0 then []
    else NumberedTopics(topics[..|topics| - 1]) + [(|topics|, topics[|topics| - 1])]
  }

  /** `topics REPO`: edit when any of the options is given, otherwise list. */
  function Topics(current: Option<seq<string>>, req: TopicsRequest): (r: TopicsOutcome)
    ensures r.Replaced? <==> req.Edits()
    ensures r.Replaced? ==> r.topics == NewTopics(current.GetOr([]), req)
                            && r.summary == "Topics: " + Join(r.topics, TopicsSeparator)
    ensures r.NoTopics? <==> !req.Edits() && |current.GetOr([])| == 0
    ensures r.Listed? ==> |r.rows| == |current.value| > 0
                          && forall i :: 0 <= i < |r.rows| ==> r.rows[i] == (i + 1, current.value[i])
  {
    var topics := current.GetOr([]);
    if req.Edits() then
      var t := NewTopics(topics, req);
      Replaced(t, "Topics: " + Join(t, TopicsSeparator))
    else if |topics| == 0 then NoTopics
    else Listed(NumberedTopics(topics))
  }

  // ---------------------------------------------------------------------
  // Clone
  // ---------------------------------------------------------------------

  /** `s` without its trailing '/' characters. */
  function StripTrailingSlashes(s: string): (r: string)
    ensures |r| <= |s| && r == s[..|r|]
    ensures forall k :: |r| <= k < |s| ==> s[k] == '/'
    ensures |r| == 0 || r[|r| - 1] != '/'
    decreases |s|
  {
    if |s| > 0 && s[|s| - 1] == '/' then StripTrailingSlashes(s[..|s| - 1]) else s
  }

  /** The longest suffix of `s` that holds no '/'. */
  function AfterLastSlash(s: string): (r: string)
    ensures EndsWith(s, r)
    ensures '/' !in r
    ensures |r| < |s| ==> s[|s| - |r| - 1] == '/'
    decreases |s|
  {
    if |s| == 0 || s[|s| - 1] == '/' then ""
    else
      var r := AfterLastSlash(s[..|s| - 1]);
      AfterLastSlashStep(s, r);
      r + [s[|s| - 1]]
  }

  /** A slash-free suffix of all but the last character grows by that
      character when it is not a slash. */
  lemma AfterLastSlashStep(s: string, r: string)
    requires |s| > 0 && s[|s| - 1] != '/'
    requires EndsWith(s[..|s| - 1], r) && '/' !in r
    requires |r| < |s| - 1 ==> s[..|s| - 1][|s| - 1 - |r| - 1] == '/'
    ensures EndsWith(s, r + [s[|s| - 1]]) && '/' !in r + [s[|s| - 1]]
    ensures |r| + 1 < |s| ==> s[|s| - |r| - 2] == '/'
  {
    var t := s[..|s| - 1];
    assert t[|t| - |r|..] == s[|s| - 1 - |r|..|s| - 1];
    assert s[|s| - |r| - 1..] == s[|s| - 1 - |r|..|s| - 1] + [s[|s| - 1]];
  }

  /** Ruby's `File.basename(path, ext)` on '/'-separated paths: the last
      component, trailing slashes ignored, with `ext` removed when the
      component ends with it and is longer than it. */
  function Basename(path: string, ext: string): (r: string)
    ensures |path| == 0 ==> r == ""
    ensures r == "/" || '/' !in r
  {
    var t := StripTrailingSlashes(path);
    if |t| == 0 then (if |path| == 0 then "" else "/")
    else
      var base := AfterLastSlash(t);
      if |base| > |ext| && EndsWith(base, ext) then base[..|base| - |ext|] else base
  }

  /** For "owner/name.git" the default clone directory is "name". */
  lemma BasenameDropsGitSuffix(owner: string, name: string)
    requires '/' !in owner && '/' !in name && |name| > 0
    ensures Basename(owner + "/" + name + ".git", ".git") == name
  {
    var n := name + ".git";
    GitSuffixed(name);
    assert owner + "/" + name + ".git" == owner + "/" + n;
    BasenameOfRepoName(owner, n);
  }

  /** A non-empty slash-free name with ".git" appended. */
  lemma GitSuffixed(name: string)
    requires '/' !in name && |name| > 0
    ensures var n := name + ".git";
            '/' !in n && |n| > 4 && EndsWith(n, ".git") && n[..|n| - 4] == name
  {
    var n := name + ".git";
    assert n[|n| - 4..] == ".git";
    assert n[..|n| - 4] == name;
  }

  /** For "owner/name" the default clone directory is "name", less a
      ".git" ending that is not all of it. */
  lemma BasenameOfRepoName(owner: string, name: string)
    requires '/' !in owner && '/' !in name && |name| > 0
    ensures Basename(owner + "/" + name, ".git")
              == if |name| > 4 && EndsWith(name, ".git") then name[..|name| - 4] else name
  {
    AfterLastSlashOfComponent(owner, name);
  }

  /** The last component of "owner/name" is "name", and no slash is stripped. */
  lemma AfterLastSlashOfComponent(owner: string, name: string)
    requires '/' !in owner && '/' !in name && |name| > 0
    ensures StripTrailingSlashes(owner + "/" + name) == owner + "/" + name
    ensures AfterLastSlash(owner + "/" + name) == name
  {
    var s := owner + "/" + name;
    assert s[|s| - 1] == name[|name| - 1];
    var r := AfterLastSlash(s);
    assert r == s[|s| - |r|..];
    assert s[|s| - |name|..] == name;
    assert |r| == |name|;
  }

  /** The directory `clone` reports: `--path`, or the repository's base name. */
  function TargetPath(repo: string, path: Option<string>): (r: string)
    ensures path.Some? ==> r == path.value
    ensures path.None? ==> r == Basename(repo, ".git")
  {
    path.GetOr(Basename(repo, ".git"))
  }

  /** The command line `clone` runs. A depth of 0 is still truthy and is
      passed; the target directory is only appended when `--path` is given. */
  function CloneCommand(cloneUrl: string, depth: Option<int>, path: Option<string>): (cmd: string)
    ensures StartsWith(cmd, "git clone ")
    ensures path.None? ==> EndsWith(cmd, " " + cloneUrl)
    ensures path.Some? ==> EndsWith(cmd, " " + cloneUrl + " " + path.value)
  {
    var cmd := "git clone";
    var cmd := if depth.Some? then cmd + " --depth " + IntToString(depth.value) else cmd;
    var cmd := cmd + " " + cloneUrl;
    if path.Some? then cmd + " " + path.value else cmd
  }

  /** The words of the clone command, as the shell would see them. */
  function CloneWords(cloneUrl: string, depth: Option<int>, path: Option<string>): seq<string> {
    CloneHead(depth) + [cloneUrl] + (if path.Some? then [path.value] else [])
  }

  /** Appending a word to a joined line is joining one more word. */
  lemma {:induction false} JoinSnoc(parts: seq<string>, sep: string, x: string)
    requires |parts| >= 1
    ensures Join(parts + [x], sep) == Join(parts, sep) + sep + x
    decreases |parts|
  {
    var p := parts + [x];
    assert p[0] == parts[0];
    if |parts| > 1 {
      assert p[1..] == parts[1..] + [x];
      JoinSnoc(parts[1..], sep, x);
    } else {
      assert p[1..] == [x];
    }
  }

  /** The words before the URL: "git clone", then "--depth N" when a
      depth is given. */
  function CloneHead(depth: Option<int>): seq<string> {
    ["git", "clone"] + (if depth.Some? then ["--depth", IntToString(depth.value)] else [])
  }

  /** Joined, the head words give the start of the command line. */
  lemma CloneHeadIsJoin(depth: Option<int>)
    ensures |CloneHead(depth)| >= 2
    ensures Join(CloneHead(depth), " ")
              == if depth.Some? then "git clone" + " --depth " + IntToString(depth.value) else "git clone"
  {
    var w0 := ["git", "clone"];
    assert Join(w0, " ") == "git clone" by {
      assert w0[1..] == ["clone"];
    }
    if depth.Some? {
      var d := IntToString(depth.value);
      JoinSnoc(w0, " ", "--depth");
      JoinSnoc(w0 + ["--depth"], " ", d);
      assert w0 + ["--depth"] + [d] == CloneHead(depth);
      assert "git clone" + " " + "--depth" + " " + d == "git clone" + " --depth " + d;
    } else {
      assert CloneHead(depth) == w0;
    }
  }

  /** The command line is the words joined by single spaces. */
  lemma CloneCommandIsJoin(cloneUrl: string, depth: Option<int>, path: Option<string>)
    ensures Join(CloneWords(cloneUrl, depth, path), " ") == CloneCommand(cloneUrl, depth, path)
  {
    var head := CloneHead(depth);
    CloneHeadIsJoin(depth);
    var w := head + [cloneUrl];
    JoinSnoc(head, " ", cloneUrl);
    if path.Some? {
      assert CloneWords(cloneUrl, depth, path) == w + [path.value];
      JoinSnoc(w, " ", path.value);
    } else {
      assert CloneWords(cloneUrl, depth, path) == w;
    }
  }

  /** When the URL and path hold no space, splitting the command on spaces
      gives back exactly the intended words: the depth value and the path
      cannot be confused with other arguments. */
  lemma CloneCommandWords(cloneUrl: string, depth: Option<int>, path: Option<string>)
    requires ' ' !in cloneUrl
    requires path.Some? ==> ' ' !in path.value
    ensures Split(CloneCommand(cloneUrl, depth, path), ' ') == CloneWords(cloneUrl, depth, path)
  {
    var words := CloneWords(cloneUrl, depth, path);
    CloneCommandIsJoin(cloneUrl, depth, path);
    forall k | 0 <= k < |words|
      ensures ' ' !in words[k]
    {
    }
    SplitJoin(words, ' ');
  }
}
