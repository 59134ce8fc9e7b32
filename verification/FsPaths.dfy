/** Path parsing, resolution and parent splitting. */
module FsPaths {
  import opened FsDisk

  // ---------------------------------------------------------------- components

  function SkipSlashes(p: string): (r: string)
    ensures |r| <= |p| && (r != "" ==> r[0] != '/')
  {
    if p != "" && p[0] == '/' then SkipSlashes(p[1..]) else p
  }

  /** Length of the leading run without a slash. */
  function Run(p: string): (n: nat)
    ensures n <= |p| && '/' !in p[..n] && (n < |p| ==> p[n] == '/')
    ensures p != "" && p[0] != '/' ==> n > 0
  {
    if p == "" || p[0] == '/' then 0
    else
      var n := Run(p[1..]);
      assert p[..n + 1] == [p[0]] + p[1..][..n];
      n + 1
  }

  /** What next_component finds. */
  datatype Next = End | TooLong | Part(name: string, rest: string)

  function NextComponent(p: string): (r: Next)
    ensures r.Part? ==> |r.rest| < |p| && 0 < |r.name| <= NAME_MAX && '/' !in r.name
  {
    var q := SkipSlashes(p);
    var n := Run(q);
    if q == "" then End else if n > NAME_MAX then TooLong else Part(q[..n], q[n..])
  }

  /** All components of a path. */
  function Components(p: string): seq<string>
    decreases |p|
  {
    var q := SkipSlashes(p);
    if q == "" then [] else [q[..Run(q)]] + Components(q[Run(q)..])
  }

  predicate AllShort(p: string) {
    forall k | 0 <= k < |Components(p)| :: |Components(p)[k]| <= NAME_MAX
  }

  /** next_component sees a component too long exactly when the first one is. */
  lemma ComponentsStep(p: string)
    ensures match NextComponent(p)
            case End => Components(p) == []
            case TooLong => |Components(p)| > 0 && |Components(p)[0]| > NAME_MAX
            case Part(name, rest) => Components(p) == [name] + Components(rest)
  {
  }

  lemma ShortStep(p: string)
    ensures NextComponent(p).TooLong? ==> !AllShort(p)
    ensures NextComponent(p).End? ==> AllShort(p)
    ensures NextComponent(p).Part? ==> (AllShort(p) <==> AllShort(NextComponent(p).rest))
  {
    ComponentsStep(p);
    if NextComponent(p).Part? {
      var c, d := Components(p), Components(NextComponent(p).rest);
      assert forall k | 0 <= k < |d| :: d[k] == c[k + 1];
      assert forall k | 0 < k < |c| :: c[k] == d[k - 1];
    }
  }

  // ---------------------------------------------------------------- resolution

  function ResolveFrom(img: Image, cur: nat, p: string): Found
    requires Sized(img)
    decreases |p|
  {
    match NextComponent(p)
    case End => Inum(cur)
    case TooLong => Missing
    case Part(name, rest) =>
      if name == "." then ResolveFrom(img, cur, rest)
      else match Lookup(img, cur, name)
        case Missing => Missing
        case Inum(child) => ResolveFrom(img, child, rest)
  }

  /** resolve_path. */
  function Resolve(img: Image, path: string, start: nat): Found
    requires Sized(img)
  {
    if path == "" then Missing else ResolveFrom(img, if path[0] == '/' then 0 else start, path)
  }

  datatype Parent = NoParent | ParentOf(dir: nat, name: string)

  function SplitFrom(img: Image, cur: nat, p: string): (r: Parent)
    requires Sized(img)
    ensures r.ParentOf? ==> GoodName(r.name)
    decreases |p|
  {
    match NextComponent(p)
    case End => NoParent
    case TooLong => NoParent
    case Part(name, rest) =>
      if name == "." then SplitFrom(img, cur, rest)
      else if name == ".." || NextComponent(rest).Part? then
        match Lookup(img, cur, name)
        case Missing => NoParent
        case Inum(child) => SplitFrom(img, child, rest)
      else ParentOf(cur, name)
  }

  /** split_parent. */
  function Split(img: Image, path: string, cwd: nat): (r: Parent)
    requires Sized(img)
    ensures r.ParentOf? ==> GoodName(r.name)
  {
    if path == "" || |path| > PATH_MAX then NoParent
    else SplitFrom(img, if path[0] == '/' then 0 else cwd, path)
  }

  // ---------------------------------------------------------------- agreement

  /** A path with an over-long component never resolves. */
  lemma {:induction false} LongFails(img: Image, cur: nat, p: string)
    requires Sized(img) && !AllShort(p)
    ensures ResolveFrom(img, cur, p) == Missing
    decreases |p|
  {
    ShortStep(p);
    var n := NextComponent(p);
    if n.Part? {
      if n.name == "." {
        LongFails(img, cur, n.rest);
      } else if Lookup(img, cur, n.name).Inum? {
        LongFails(img, Lookup(img, cur, n.name).ino, n.rest);
      }
    }
  }

  lemma {:induction false} SplitAgrees(img: Image, cur: nat, p: string)
    requires Sized(img) && SplitFrom(img, cur, p).ParentOf? && AllShort(p)
    ensures var s := SplitFrom(img, cur, p); ResolveFrom(img, cur, p) == Lookup(img, s.dir, s.name)
    decreases |p|
  {
    ShortStep(p);
    var n := NextComponent(p);
    ShortStep(n.rest);
    if n.name == "." {
      SplitAgrees(img, cur, n.rest);
    } else if n.name == ".." || NextComponent(n.rest).Part? {
      SplitAgrees(img, Lookup(img, cur, n.name).ino, n.rest);
    }
  }

  /**
    When split_parent yields a parent and a name, resolve_path finds exactly what dir_find
    finds there, provided no component is over-long; with an over-long component it finds
    nothing, whatever dir_find says.
   */
  lemma ResolveIsLookup(img: Image, path: string, cwd: nat)
    requires Sized(img) && Split(img, path, cwd).ParentOf?
    ensures var s := Split(img, path, cwd);
            Resolve(img, path, cwd) == if AllShort(path) then Lookup(img, s.dir, s.name) else Missing
  {
    var cur: nat := if path[0] == '/' then 0 else cwd;
    if AllShort(path) {
      SplitAgrees(img, cur, path);
    } else {
      LongFails(img, cur, path);
    }
  }

  /** So the two agree exactly when every component is short or the name is absent anyway. */
  lemma AgreementIff(img: Image, path: string, cwd: nat)
    requires Sized(img) && Split(img, path, cwd).ParentOf?
    ensures var s := Split(img, path, cwd);
            Resolve(img, path, cwd) == Lookup(img, s.dir, s.name) <==>
                AllShort(path) || Lookup(img, s.dir, s.name) == Missing
  {
    ResolveIsLookup(img, path, cwd);
  }

  /**
    Where they part: split_parent takes an over-long last component for the end of the path, so
    it yields the directory's own name, while resolve_path fails, whatever exists on the disk.
   */
  lemma OverLongEndsPath(img: Image, name: string, long: string, cwd: nat)
    requires Sized(img) && GoodName(name) && '/' !in long && |long| > NAME_MAX && |name| + |long| + 2 <= PATH_MAX
    ensures Split(img, "/" + name + ("/" + long), cwd) == ParentOf(0, name)
    ensures Resolve(img, "/" + name + ("/" + long), cwd) == Missing
  {
    var rest := "/" + long;
    NextName(name, rest);
    LongComponent(long);
    ShortStep("/" + name + rest);
    ShortStep(rest);
    assert "/" + name + rest == "/" + name + ("/" + long);
    assert name != "." && name != "..";
    LongFails(img, 0, "/" + name + rest);
  }

  lemma NextName(name: string, rest: string)
    requires name != "" && '/' !in name && |name| <= NAME_MAX && (rest == "" || rest[0] == '/')
    ensures NextComponent("/" + name + rest) == Part(name, rest)
  {
    var p := "/" + name + rest;
    assert p[1..] == name + rest && name[0] in name;
    SkipName(name, rest);
    assert SkipSlashes(p) == name + rest;
    assert (name + rest)[..|name|] == name && (name + rest)[|name|..] == rest;
  }

  lemma LongComponent(long: string)
    requires '/' !in long && |long| > NAME_MAX
    ensures NextComponent("/" + long) == TooLong
  {
    var p := "/" + long;
    assert p[1..] == long && long[0] in long && long + "" == long;
    SkipName(long, "");
    assert SkipSlashes(p) == long;
  }

  // ---------------------------------------------------------------- absolute paths of names

  /** The text pwd prints for a list of names below the root. */
  function Printed(names: seq<string>): (r: string)
    ensures |r| > 0 && r[0] == '/'
  {
    if |names| == 0 then "/"
    else if |names| == 1 then "/" + names[0]
    else Printed(names[..|names| - 1]) + "/" + names[|names| - 1]
  }

  /** Each name after a slash. */
  function Slashed(names: seq<string>): string {
    if names == [] then "" else "/" + names[0] + Slashed(names[1..])
  }

  lemma {:induction false} SlashedAppend(names: seq<string>, name: string)
    ensures Slashed(names + [name]) == Slashed(names) + "/" + name
  {
    if names == [] {
      assert ([] + [name])[1..] == [];
    } else {
      SlashedAppend(names[1..], name);
      assert (names + [name])[1..] == names[1..] + [name];
    }
  }

  /** What is printed: a slash alone for the root, else each name after one slash. */
  lemma {:induction false} PrintedSlashed(names: seq<string>)
    ensures Printed(names) == if names == [] then "/" else Slashed(names)
  {
    var n := |names| - 1;
    if n >= 0 {
      PrintedSlashed(names[..n]);
      SlashedAppend(names[..n], names[n]);
      assert names == names[..n] + [names[n]];
    }
  }

  predicate PlainNames(names: seq<string>) {
    forall k | 0 <= k < |names| :: GoodName(names[k])
  }

  lemma {:induction false} SkipName(name: string, rest: string)
    requires '/' !in name && (rest == "" || rest[0] == '/')
    ensures Run(name + rest) == |name|
  {
    if name == "" {
      assert name + rest == rest;
    } else {
      assert (name + rest)[1..] == name[1..] + rest;
      assert name[0] in name && forall c | c in name[1..] :: c in name;
      SkipName(name[1..], rest);
    }
  }

  lemma NameComponent(name: string, rest: string)
    requires name != "" && '/' !in name && (rest == "" || rest[0] == '/')
    ensures Components("/" + name + rest) == [name] + Components(rest)
  {
    var p := "/" + name + rest;
    assert p[1..] == name + rest && name[0] in name;
    SkipName(name, rest);
    assert SkipSlashes(p) == name + rest;
    assert (name + rest)[..|name|] == name && (name + rest)[|name|..] == rest;
  }

  lemma SliceAppend(q: string, n: nat, tail: string)
    requires n <= |q|
    ensures (q + tail)[..n] == q[..n] && (q + tail)[n..] == q[n..] + tail
  {
  }

  lemma ComponentsUnfold(p: string, q: string, n: nat)
    requires q == SkipSlashes(p) && q != "" && n == Run(q)
    ensures Components(p) == [q[..n]] + Components(q[n..])
  {
  }

  /** The first component is the same when a slash follows. */
  lemma ComponentsPrefix(p: string, tail: string)
    requires SkipSlashes(p) != "" && tail != "" && tail[0] == '/'
    ensures var q := SkipSlashes(p); Components(p + tail) == [q[..Run(q)]] + Components(q[Run(q)..] + tail)
  {
    var q := SkipSlashes(p);
    SkipPrefix(p, tail);
    RunPrefix(q, tail);
    SliceAppend(q, Run(q), tail);
    ComponentsUnfold(p + tail, q + tail, Run(q));
  }

  /** Joining two paths by a slash joins their components. */
  lemma {:induction false} ComponentsJoin(p: string, tail: string)
    requires tail != "" && tail[0] == '/'
    ensures Components(p + tail) == Components(p) + Components(tail)
    decreases |p|
  {
    if SkipSlashes(p) == "" {
      SlashesOnly(p, tail);
    } else {
      ComponentsPrefix(p, tail);
      var q := SkipSlashes(p);
      ComponentsJoin(q[Run(q)..], tail);
    }
  }

  /** A leading slash makes no difference, and a name without slashes is one component. */
  lemma ComponentsOne(p: string)
    ensures Components("/" + p) == Components(p) && Components("") == []
    ensures p != "" && '/' !in p ==> Components(p) == [p]
  {
    assert ("/" + p)[1..] == p;
    if p != "" && '/' !in p {
      assert p[0] in p;
      NameComponent(p, "");
      assert "/" + p + "" == "/" + p;
    }
  }

  /** Appending "/name" appends one component. */
  lemma ComponentsAppend(p: string, name: string, tail: string)
    requires name != "" && '/' !in name && tail == "/" + name
    ensures Components(p + tail) == Components(p) + [name]
  {
    ComponentsJoin(p, tail);
    ComponentsOne(name);
  }

  lemma {:induction false} SlashesOnly(p: string, tail: string)
    requires SkipSlashes(p) == ""
    ensures SkipSlashes(p + tail) == SkipSlashes(tail) && Components(p + tail) == Components(tail)
  {
    if p == "" {
      assert p + tail == tail;
    } else {
      SlashesOnly(p[1..], tail);
      assert (p + tail)[1..] == p[1..] + tail;
    }
  }

  lemma {:induction false} SkipPrefix(p: string, tail: string)
    requires SkipSlashes(p) != ""
    ensures SkipSlashes(p + tail) == SkipSlashes(p) + tail
  {
    if p[0] == '/' {
      SkipPrefix(p[1..], tail);
      assert (p + tail)[1..] == p[1..] + tail;
    }
  }

  lemma {:induction false} RunPrefix(q: string, tail: string)
    requires tail != "" && tail[0] == '/'
    ensures Run(q + tail) == Run(q)
  {
    if q == "" {
      assert q + tail == tail;
    } else if q[0] != '/' {
      RunPrefix(q[1..], tail);
      assert (q + tail)[1..] == q[1..] + tail;
    }
  }

  lemma {:induction false} PrintedComponents(names: seq<string>)
    requires PlainNames(names)
    ensures Components(Printed(names)) == names
  {
    var n := |names| - 1;
    if n == -1 {
      assert SkipSlashes("/") == "";
    } else if n == 0 {
      NameComponent(names[0], "");
      assert "/" + names[0] + "" == "/" + names[0];
    } else {
      PrintedComponents(names[..n]);
      ComponentsAppend(Printed(names[..n]), names[n], "/" + names[n]);
      assert Printed(names[..n]) + "/" + names[n] == Printed(names[..n]) + ("/" + names[n]);
      assert names == names[..n] + [names[n]];
    }
  }

  /** Following names one directory at a time. */
  function Descend(img: Image, cur: nat, names: seq<string>): Found
    requires Sized(img)
    decreases |names|
  {
    if names == [] then Inum(cur)
    else match Lookup(img, cur, names[0])
      case Missing => Missing
      case Inum(c) => Descend(img, c, names[1..])
  }

  /** The names without "." among them. */
  function NoDots(names: seq<string>): seq<string> {
    if names == [] then []
    else if names[0] == "." then NoDots(names[1..])
    else [names[0]] + NoDots(names[1..])
  }

  lemma {:induction false} NoDotsPlain(names: seq<string>)
    requires PlainNames(names)
    ensures NoDots(names) == names
  {
    if names != [] {
      assert GoodName(names[0]) && PlainNames(names[1..]);
      NoDotsPlain(names[1..]);
    }
  }

  lemma {:induction false} NoDotsAppend(names: seq<string>, name: string)
    ensures NoDots(names + [name]) == if name == "." then NoDots(names) else NoDots(names) + [name]
  {
    if names != [] {
      NoDotsAppend(names[1..], name);
      assert (names + [name])[1..] == names[1..] + [name];
    }
  }

  lemma {:induction false} ResolveFromFolds(img: Image, cur: nat, p: string)
    requires Sized(img) && AllShort(p)
    ensures ResolveFrom(img, cur, p) == Descend(img, cur, NoDots(Components(p)))
    decreases |p|
  {
    ComponentsStep(p);
    ShortStep(p);
    var n := NextComponent(p);
    if n.Part? {
      assert Components(p)[1..] == Components(n.rest);
      if n.name == "." {
        ResolveFromFolds(img, cur, n.rest);
      } else if Lookup(img, cur, n.name).Inum? {
        ResolveFromFolds(img, Lookup(img, cur, n.name).ino, n.rest);
      }
    }
  }

  /**
    Where a path leads: from the root or from `start`, each component but "." is looked up in turn,
    ".." like any other; an empty path or one with an over-long component leads nowhere.
   */
  lemma ResolveFolds(img: Image, path: string, start: nat)
    requires Sized(img)
    ensures Resolve(img, path, start)
         == if path == "" || exists k :: 0 <= k < |Components(path)| && |Components(path)[k]| > NAME_MAX then Missing
            else Descend(img, if path[0] == '/' then 0 else start, NoDots(Components(path)))
  {
    if path != "" {
      var cur: nat := if path[0] == '/' then 0 else start;
      if AllShort(path) {
        ResolveFromFolds(img, cur, path);
      } else {
        LongFails(img, cur, path);
      }
    }
  }

  /** One component more is one lookup more, unless it is "." or over-long. */
  lemma ResolveMore(img: Image, path: string, name: string, start: nat)
    requires Sized(img) && path != "" && name != "" && '/' !in name
    ensures Resolve(img, path + ("/" + name), start)
         == match Resolve(img, path, start)
            case Missing => Missing
            case Inum(c) => if |name| > NAME_MAX then Missing else if name == "." then Inum(c) else Lookup(img, c, name)
  {
    var longer, cur := path + ("/" + name), if path[0] == '/' then 0 else start;
    var cs := Components(path);
    ComponentsAppend(path, name, "/" + name);
    assert longer[0] == path[0] && Components(longer) == cs + [name];
    ResolveFolds(img, path, start);
    ResolveFolds(img, longer, start);
    NoDotsAppend(cs, name);
    DescendAppend(img, cur, NoDots(cs), name);
    if k :| 0 <= k < |cs| && |cs[k]| > NAME_MAX {
      assert |(cs + [name])[k]| > NAME_MAX;
    } else if |name| > NAME_MAX {
      assert |(cs + [name])[|cs|]| > NAME_MAX;
    }
  }

  /** A single component. */
  lemma ResolveName(img: Image, name: string, start: nat)
    requires Sized(img) && name != "" && '/' !in name
    ensures Resolve(img, name, start)
         == if |name| > NAME_MAX then Missing else if name == "." then Inum(start) else Lookup(img, start, name)
  {
    ComponentsOne(name);
    ResolveFolds(img, name, start);
    assert name[0] in name && Components(name)[0] == name;
    assert NoDots([name]) == if name == "." then [] else [name];
  }

  // ---------------------------------------------------------------- splitting, by components

  /** The components before the first over-long one. */
  function Lead(names: seq<string>): (r: seq<string>)
    ensures |r| <= |names| && r == names[..|r|] && (forall k | 0 <= k < |r| :: |r[k]| <= NAME_MAX)
    ensures |r| < |names| ==> |names[|r|]| > NAME_MAX
  {
    if names == [] || |names[0]| > NAME_MAX then [] else [names[0]] + Lead(names[1..])
  }

  /** The parent is found through all components of `lead` but the last, which must be a proper name. */
  function SplitOver(img: Image, cur: nat, lead: seq<string>): Parent
    requires Sized(img)
  {
    if lead == [] || lead[|lead| - 1] == "." || lead[|lead| - 1] == ".." then NoParent
    else match Descend(img, cur, NoDots(lead[..|lead| - 1]))
      case Missing => NoParent
      case Inum(d) => ParentOf(d, lead[|lead| - 1])
  }

  lemma SplitOverStep(img: Image, cur: nat, name: string, rest: seq<string>)
    requires Sized(img)
    ensures SplitOver(img, cur, [name] + rest)
         == if rest == [] then if name == "." || name == ".." then NoParent else ParentOf(cur, name)
            else if name == "." then SplitOver(img, cur, rest)
            else match Lookup(img, cur, name)
              case Missing => NoParent
              case Inum(c) => SplitOver(img, c, rest)
  {
    var lead := [name] + rest;
    if rest == [] {
      assert lead[..0] == [] && lead[|lead| - 1] == name;
    } else {
      var init := lead[..|lead| - 1];
      assert init[0] == name && init[1..] == rest[..|rest| - 1] && lead[|lead| - 1] == rest[|rest| - 1];
      if name != "." {
        var names := NoDots(init);
        assert names[0] == name && names[1..] == NoDots(rest[..|rest| - 1]);
      }
    }
  }

  lemma {:induction false} SplitFromFolds(img: Image, cur: nat, p: string)
    requires Sized(img)
    ensures SplitFrom(img, cur, p) == SplitOver(img, cur, Lead(Components(p)))
    decreases |p|
  {
    ComponentsStep(p);
    var n := NextComponent(p);
    if n.Part? {
      ComponentsStep(n.rest);
      var lead, rest := Lead(Components(p)), Lead(Components(n.rest));
      assert Components(p)[1..] == Components(n.rest) && lead == [n.name] + rest;
      assert rest != [] <==> NextComponent(n.rest).Part?;
      SplitOverStep(img, cur, n.name, rest);
      if n.name == "." {
        SplitFromFolds(img, cur, n.rest);
      } else if n.name == ".." || NextComponent(n.rest).Part? {
        if Lookup(img, cur, n.name).Inum? {
          SplitFromFolds(img, Lookup(img, cur, n.name).ino, n.rest);
        }
      }
    }
  }

  /**
    How a path splits: with the components up to the first over-long one, the last of these is the
    name, which must not be "." or "..", and those before it lead to the parent.
   */
  lemma SplitFolds(img: Image, path: string, cwd: nat)
    requires Sized(img)
    ensures Split(img, path, cwd)
         == if path == "" || |path| > PATH_MAX then NoParent
            else SplitOver(img, if path[0] == '/' then 0 else cwd, Lead(Components(path)))
  {
    if path != "" {
      SplitFromFolds(img, if path[0] == '/' then 0 else cwd, path);
    }
  }

  /** Resolving a printed path follows the printed names from the root, wherever it starts. */
  lemma ResolvePrinted(img: Image, names: seq<string>, start: nat)
    requires Sized(img) && PlainNames(names)
    ensures Resolve(img, Printed(names), start) == Descend(img, 0, names)
  {
    PrintedComponents(names);
    NoDotsPlain(names);
    assert forall k | 0 <= k < |names| :: GoodName(names[k]);
    ResolveFolds(img, Printed(names), start);
  }

  lemma {:induction false} DescendAppend(img: Image, cur: nat, names: seq<string>, name: string)
    requires Sized(img)
    ensures Descend(img, cur, names + [name])
         == match Descend(img, cur, names) case Missing => Missing case Inum(c) => Lookup(img, c, name)
    decreases |names|
  {
    var all := names + [name];
    if names == [] {
      assert all[1..] == [];
    } else {
      assert all[0] == names[0] && all[1..] == names[1..] + [name];
      if Lookup(img, cur, names[0]).Inum? {
        DescendAppend(img, Lookup(img, cur, names[0]).ino, names[1..], name);
      }
    }
  }

  // ---------------------------------------------------------------- the implementation

  /** dir_find, scanning the entries. */
  method DirFind(img: Image, d: nat, name: string) returns (pos: nat, found: Found)
    requires Sized(img)
    ensures found == Lookup(img, d, name)
    ensures found.Inum? ==> pos == FindName(Listing(img, d), name, 0) < DIR_ENTRIES
  {
    if !IsDir(img, d) {
      return 0, Missing;
    }
    var entries := Listing(img, d);
    pos := 0;
    while pos < DIR_ENTRIES
      invariant pos <= DIR_ENTRIES && FindName(entries, name, 0) == FindName(entries, name, pos)
    {
      if entries[pos].ino != INVALID && entries[pos].name == name {
        return pos, Inum(entries[pos].ino);
      }
      pos := pos + 1;
    }
    return pos, Missing;
  }

  /** The run without a slash is as long as its first `n` characters without one, and the run after them. */
  lemma {:induction false} RunFrom(q: string, n: nat)
    requires n <= |q| && '/' !in q[..n]
    ensures Run(q) == n + Run(q[n..])
  {
    if n == 0 {
      assert q[0..] == q;
    } else {
      assert q[0] in q[..n] && q[1..][..n - 1] == q[..n][1..] && q[1..][n - 1..] == q[n..];
      RunFrom(q[1..], n - 1);
    }
  }

  /** The first loop of next_component: where the slashes end. */
  method SkipLoop(p: string) returns (i: nat)
    ensures i <= |p| && p[i..] == SkipSlashes(p)
  {
    i := 0;
    assert p[0..] == p;
    while i < |p| && p[i] == '/'
      invariant i <= |p| && SkipSlashes(p[i..]) == SkipSlashes(p)
    {
      assert p[i..][1..] == p[i + 1..];
      i := i + 1;
    }
  }

  /** Its second loop: the length of the component, or `tooLong`. */
  method CopyLoop(q: string) returns (n: nat, tooLong: bool)
    ensures tooLong <==> Run(q) > NAME_MAX
    ensures !tooLong ==> n == Run(q)
  {
    n, tooLong := 0, false;
    while n < |q| && q[n] != '/'
      invariant n <= |q| && n <= NAME_MAX && '/' !in q[..n]
    {
      if n >= NAME_MAX {
        RunFrom(q, n);
        return n, true;
      }
      assert q[..n + 1] == q[..n] + [q[n]];
      n := n + 1;
    }
    RunFrom(q, n);
  }

  method ScanComponent(p: string) returns (r: Next)
    ensures r == NextComponent(p)
  {
    var i := SkipLoop(p);
    if i == |p| {
      return End;
    }
    var n, tooLong := CopyLoop(p[i..]);
    if tooLong {
      return TooLong;
    }
    return Part(p[i..][..n], p[i..][n..]);
  }

  method ResolvePath(img: Image, path: string, start: nat) returns (r: Found)
    requires Sized(img)
    ensures r == Resolve(img, path, start)
  {
    if path == "" {
      return Missing;
    }
    var cur: nat := if path[0] == '/' then 0 else start;
    var p := path;
    while true
      invariant ResolveFrom(img, cur, p) == Resolve(img, path, start)
      decreases |p|
    {
      var n := ScanComponent(p);
      match n {
        case TooLong => return Missing;
        case End => return Inum(cur);
        case Part(name, rest) =>
          if name != "." {
            var _, child := DirFind(img, cur, name);
            if child.Missing? {
              return Missing;
            }
            cur := child.ino;
          }
          p := rest;
      }
    }
  }

  method SplitParent(img: Image, path: string, cwd: nat) returns (r: Parent)
    requires Sized(img)
    ensures r == Split(img, path, cwd)
  {
    if path == "" || |path| > PATH_MAX {
      return NoParent;
    }
    var cur: nat := if path[0] == '/' then 0 else cwd;
    var p := path;
    while true
      invariant SplitFrom(img, cur, p) == Split(img, path, cwd)
      decreases |p|
    {
      var n := ScanComponent(p);
      match n {
        case TooLong => return NoParent;
        case End => return NoParent;
        case Part(name, rest) =>
          if name != "." {
            var look := ScanComponent(rest);
            if name != ".." && !look.Part? {
              return ParentOf(cur, name);
            }
            var _, child := DirFind(img, cur, name);
            if child.Missing? {
              return NoParent;
            }
            cur := child.ino;
          }
          p := rest;
      }
    }
  }
}
