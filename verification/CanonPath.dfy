// uhttpd-utils.c: the path normaliser of the web server and its document-root test,
// a character automaton over two buffers, against a stack of path components.
module CanonPath {

  const PATH_MAX: nat := 4096

  // ---- the reference: components resolved over a stack -------------------

  function SlashFrom(s: string, i: nat): (e: nat)
    requires i <= |s|
    ensures i <= e <= |s|
    ensures e < |s| ==> s[e] == '/'
    ensures forall k :: i <= k < e ==> s[k] != '/'
    decreases |s| - i
  {
    if i == |s| || s[i] == '/' then i else SlashFrom(s, i + 1)
  }

  // The component that starts after the slash at i.
  function NameAt(s: string, i: nat): (name: string)
    requires i < |s|
    ensures '/' !in name
  {
    s[i + 1..SlashFrom(s, i + 1)]
  }

  function Names(s: string, i: nat): seq<string>
    requires i <= |s|
    decreases |s| - i
  {
    if i == |s| then [] else [NameAt(s, i)] + Names(s, SlashFrom(s, i + 1))
  }

  lemma NamesNext(s: string, i: nat)
    requires i < |s|
    ensures Names(s, i) == [NameAt(s, i)] + Names(s, SlashFrom(s, i + 1))
  {
  }

  lemma NamesEnd(s: string)
    ensures Names(s, |s|) == []
  {
  }

  function Step(stack: seq<string>, name: string): seq<string> {
    if name == "" || name == "." then stack
    else if name == ".." then (if stack == [] then [] else stack[..|stack| - 1])
    else stack + [name]
  }

  function Resolve(stack: seq<string>, names: seq<string>): seq<string>
    decreases |names|
  {
    if names == [] then stack else Resolve(Step(stack, names[0]), names[1..])
  }

  function Render(stack: seq<string>): string {
    if stack == [] then "" else Render(stack[..|stack| - 1]) + "/" + stack[|stack| - 1]
  }

  predicate Ordinary(name: string) {
    name != "" && name != "." && name != ".." && '/' !in name && '\0' !in name
  }

  ghost predicate AllOrdinary(stack: seq<string>) {
    forall k :: 0 <= k < |stack| ==> Ordinary(stack[k])
  }

  function Directory(stack: seq<string>): string {
    if stack == [] then "/" else Render(stack)
  }

  // What the components of an absolute path lead to.
  function Target(path: string): seq<string> {
    Resolve([], Names(path, 0))
  }

  function Canonical(path: string): string {
    Directory(Target(path))
  }

  predicate IsAbsolute(s: string) {
    |s| > 0 && s[0] == '/' && '\0' !in s
  }

  lemma {:induction false} ResolveStaysOrdinary(stack: seq<string>, names: seq<string>)
    requires AllOrdinary(stack)
    requires forall k :: 0 <= k < |names| ==> '/' !in names[k] && '\0' !in names[k]
    ensures AllOrdinary(Resolve(stack, names))
    decreases |names|
  {
    if names != [] {
      assert '/' !in names[0] && '\0' !in names[0];
      ResolveStaysOrdinary(Step(stack, names[0]), names[1..]);
    }
  }

  lemma {:induction false} NamesArePlain(s: string, i: nat)
    requires i <= |s| && '\0' !in s
    ensures forall k :: 0 <= k < |Names(s, i)| ==>
      '/' !in Names(s, i)[k] && '\0' !in Names(s, i)[k]
    decreases |s| - i
  {
    if i < |s| {
      NamesArePlain(s, SlashFrom(s, i + 1));
    }
  }

  lemma TargetIsOrdinary(path: string)
    requires '\0' !in path
    ensures AllOrdinary(Target(path))
  {
    hide Resolve, Names;
    NamesArePlain(path, 0);
    ResolveStaysOrdinary([], Names(path, 0));
  }

  // ---- one component more ----

  lemma {:induction false} ResolveAppend(stack: seq<string>, names: seq<string>, name: string)
    ensures Resolve(stack, names + [name]) == Step(Resolve(stack, names), name)
    decreases |names|
  {
    if names == [] {
      assert ([] + [name])[1..] == [];
    } else {
      assert (names + [name])[1..] == names[1..] + [name];
      ResolveAppend(Step(stack, names[0]), names[1..], name);
    }
  }

  lemma SameSlice(a: string, b: string, whole: string, from: nat, end: nat)
    requires from <= end <= |a| && whole == a + b
    ensures whole[from..end] == a[from..end]
  {
  }

  lemma TailSlice(a: string, name: string)
    ensures var whole := a + "/" + name; whole[|a| + 1..|whole|] == name
  {
  }

  lemma {:induction false} NamesAppend(path: string, name: string, i: nat)
    requires i <= |path| && (i < |path| ==> path[i] == '/') && '/' !in name
    ensures Names(path + "/" + name, i) == Names(path, i) + [name]
    decreases |path| - i
  {
    hide Names;
    var longer := path + "/" + name;
    assert longer == path + ("/" + name);
    NamesNext(longer, i);
    if i == |path| {
      assert forall k :: |path| < k < |longer| ==> longer[k] == name[k - |path| - 1];
      SlashFromAt(longer, i + 1, |longer|);
      NamesEnd(longer);
      NamesEnd(path);
      TailSlice(path, name);
    } else {
      var e := SlashFrom(path, i + 1);
      SlashFromAt(longer, i + 1, e);
      NamesNext(path, i);
      NamesAppend(path, name, e);
      SameSlice(path, "/" + name, longer, i + 1, e);
    }
  }

  // What one more component does to where a path leads: nothing and "." stay, ".." goes
  // to the parent, which for the root is the root, and any other name goes down.
  lemma Appending(path: string, name: string)
    requires (path == "" || path[0] == '/') && '/' !in name
    ensures var there := Target(path);
            Target(path + "/" + name) ==
            if name == "" || name == "." then there
            else if name != ".." then there + [name]
            else if there == [] then []
            else there[..|there| - 1]
  {
    hide Resolve, Names;
    NamesAppend(path, name, 0);
    ResolveAppend([], Names(path, 0), name);
  }

  // Down and up again is where one was.
  lemma ThereAndBack(path: string, name: string)
    requires (path == "" || path[0] == '/') && Ordinary(name)
    ensures Canonical(path + "/" + name + "/..") == Canonical(path)
  {
    hide Target;
    Appending(path, name);
    Appending(path + "/" + name, "..");
    assert (Target(path) + [name])[..|Target(path)|] == Target(path);
    assert path + "/" + name + "/" + ".." == path + "/" + name + "/..";
  }

  // ---- a rendered stack reads back as the same stack ----------------------

  lemma {:induction false} SlashFromTail(a: string, b: string, i: nat)
    requires i <= |b|
    ensures SlashFrom(a + b, |a| + i) == |a| + SlashFrom(b, i)
    decreases |b| - i
  {
    assert i < |b| ==> (a + b)[|a| + i] == b[i];
    if i < |b| && b[i] != '/' {
      SlashFromTail(a, b, i + 1);
    }
  }

  lemma NameAtTail(a: string, b: string, i: nat)
    requires i < |b|
    ensures NameAt(a + b, |a| + i) == NameAt(b, i)
    ensures SlashFrom(a + b, |a| + i + 1) == |a| + SlashFrom(b, i + 1)
  {
    SlashFromTail(a, b, i + 1);
    var e := SlashFrom(b, i + 1);
    assert (a + b)[|a| + i + 1..|a| + e] == b[i + 1..e];
  }

  lemma {:induction false} NamesTail(a: string, b: string, i: nat)
    requires i <= |b|
    ensures Names(a + b, |a| + i) == Names(b, i)
    decreases |b| - i
  {
    hide Names, NameAt, SlashFrom;
    if i < |b| {
      var e := SlashFrom(b, i + 1);
      NameAtTail(a, b, i);
      NamesNext(b, i);
      NamesNext(a + b, |a| + i);
      NamesTail(a, b, e);
    } else {
      NamesEnd(b);
      NamesEnd(a + b);
    }
  }

  lemma {:induction false} SlashFromAt(s: string, i: nat, e: nat)
    requires i <= e <= |s|
    requires e < |s| ==> s[e] == '/'
    requires forall k :: i <= k < e ==> s[k] != '/'
    ensures SlashFrom(s, i) == e
    decreases e - i
  {
    if i < e {
      SlashFromAt(s, i + 1, e);
    }
  }

  lemma {:induction false} RenderFront(name: string, rest: seq<string>)
    ensures Render([name] + rest) == "/" + name + Render(rest)
  {
    if rest != [] {
      var last := |rest| - 1;
      assert ([name] + rest)[..last + 1] == [name] + rest[..last];
      RenderFront(name, rest[..last]);
    }
  }

  lemma RenderStartsWithSlash(stack: seq<string>)
    requires stack != []
    ensures |Render(stack)| > |stack[0]| && Render(stack)[0] == '/'
  {
    assert stack == [stack[0]] + stack[1..];
    RenderFront(stack[0], stack[1..]);
  }

  lemma OrdinaryTail(stack: seq<string>)
    requires AllOrdinary(stack) && stack != []
    ensures '/' !in stack[0] && AllOrdinary(stack[1..])
  {
    assert Ordinary(stack[0]);
  }

  lemma {:induction false} NamesOfRender(stack: seq<string>)
    requires AllOrdinary(stack)
    ensures Names(Render(stack), 0) == stack
  {
    hide Render, Names, NameAt, SlashFrom, AllOrdinary;
    if stack == [] {
      RenderEmpty(stack);
      NamesEnd("");
    } else {
      var name, rest := stack[0], stack[1..];
      OrdinaryTail(stack);
      RenderFront(name, rest);
      RenderStarts(rest);
      FirstName(name, Render(rest));
      NamesTail("/" + name, Render(rest), 0);
      NamesOfRender(rest);
      assert [name] + rest == stack;
    }
  }

  lemma RenderStarts(stack: seq<string>)
    ensures Render(stack) != "" ==> Render(stack)[0] == '/'
  {
    if stack != [] {
      RenderStartsWithSlash(stack);
    }
  }

  lemma FirstName(name: string, tail: string)
    requires '/' !in name && (tail == "" || tail[0] == '/')
    ensures var s := "/" + name + tail;
            Names(s, 0) == [name] + Names(s, |name| + 1)
  {
    hide Names;
    var s := "/" + name + tail;
    assert forall k :: 1 <= k <= |name| ==> s[k] == name[k - 1];
    SlashFromAt(s, 1, |name| + 1);
    NamesNext(s, 0);
    assert s[1..|name| + 1] == name;
  }

  lemma {:induction false} ResolveOrdinary(stack: seq<string>, names: seq<string>)
    requires AllOrdinary(names)
    ensures Resolve(stack, names) == stack + names
    decreases |names|
  {
    if names != [] {
      assert Ordinary(names[0]);
      ResolveOrdinary(stack + [names[0]], names[1..]);
      assert stack + names == stack + [names[0]] + names[1..];
    }
  }

  // Normalising a normalised path changes nothing, and loses nothing about it.
  lemma TargetOfDirectory(stack: seq<string>)
    requires AllOrdinary(stack)
    ensures Target(Directory(stack)) == stack
  {
    if stack == [] {
      NamesNext("/", 0);
      SlashFromAt("/", 1, 1);
      NamesEnd("/");
      assert NameAt("/", 0) == "";
      assert Names("/", 0)[1..] == [];
    } else {
      NamesOfRender(stack);
      ResolveOrdinary([], stack);
    }
  }

  lemma Idempotent(path: string)
    requires '\0' !in path
    ensures Canonical(Canonical(path)) == Canonical(path)
  {
    hide Resolve, Names, Render;
    TargetIsOrdinary(path);
    TargetOfDirectory(Target(path));
  }

  // A normalised path: no empty, "." or ".." component, and no trailing slash.
  lemma CanonicalShape(path: string)
    requires '\0' !in path
    ensures Canonical(path) == "/" || (
      AllOrdinary(Names(Canonical(path), 0)) && Canonical(path)[|Canonical(path)| - 1] != '/')
    ensures |Canonical(path)| > 0 && Canonical(path)[0] == '/'
  {
    hide Resolve, Names;
    var stack := Target(path);
    TargetIsOrdinary(path);
    if stack != [] {
      NamesOfRender(stack);
      RenderStartsWithSlash(stack);
      assert Ordinary(stack[|stack| - 1]);
    }
  }

  // ---- the automaton -------------------------------------------------------

  // Reading a C string: the terminator follows the last character.
  function At(s: string, i: nat): char {
    if i < |s| then s[i] else '\0'
  }

  predicate Ends(c: char) {
    c == '/' || c == '\0'
  }

  function Absolute(path: string, cwd: string): string {
    if At(path, 0) == '/' then path else cwd + "/" + path
  }

  predicate AtSlash(s: string, i: nat) {
    i < |s| && s[i] == '/'
  }

  // Position b starts a component of which everything before i has been copied.
  ghost predicate Copying(s: string, b: nat, i: nat) {
    AtSlash(s, b) && b < i <= |s| && (forall k :: b < k < i ==> s[k] != '/') &&
    (Ordinary(NameAt(s, b)) || b + 1 == |s|)
  }

  // What follows the last slash of a path.
  function LastName(s: string): string {
    if s == "" || s[|s| - 1] == '/' then "" else LastName(s[..|s| - 1]) + [s[|s| - 1]]
  }

  lemma {:induction false} LastNameAt(s: string, b: nat)
    requires AtSlash(s, b) && forall k :: b < k < |s| ==> s[k] != '/'
    ensures LastName(s) == s[b + 1..]
    decreases |s|
  {
    if b + 1 < |s| {
      LastNameAt(s[..|s| - 1], b);
      assert s[b + 1..] == s[..|s| - 1][b + 1..] + [s[|s| - 1]];
    }
  }

  // The loop stops two characters short of the buffer, so a path that fills
  // the buffer loses the last character of a final ordinary component.
  predicate CutShort(s: string) {
    |s| > PATH_MAX - 2 && Ordinary(LastName(s))
  }

  function Trimmed(s: string): string {
    if |s| > 1 && s[|s| - 1] == '/' then s[..|s| - 1] else s
  }

  function Written(s: string): string {
    var whole := Canonical(s);
    if CutShort(s) && whole != "" then Trimmed(whole[..|whole| - 1]) else whole
  }

  // The normaliser is right on exactly the paths that are not cut short.
  lemma WrittenIsCanonical(s: string)
    requires '\0' !in s
    ensures Written(s) == Canonical(s) <==> !CutShort(s)
  {
    hide Resolve, Names, LastName;
    CanonicalShape(s);
  }

  lemma LongestPathIsCut()
    ensures var s := "/" + seq(PATH_MAX - 2, _ => 'a');
            IsAbsolute(s) && |s| < PATH_MAX && Written(s) != Canonical(s)
  {
    hide Canonical;
    var s := "/" + seq(PATH_MAX - 2, _ => 'a');
    LastNameAt(s, 0);
    assert |LastName(s)| > 2;
    WrittenIsCanonical(s);
  }

  lemma EmptyName(s: string, i: nat, stack: seq<string>)
    requires AtSlash(s, i) && AtSlash(s, i + 1)
    ensures Resolve(stack, Names(s, i)) == Resolve(stack, Names(s, i + 1))
  {
    SlashFromAt(s, i + 1, i + 1);
    assert NameAt(s, i) == "";
  }

  lemma DotName(s: string, i: nat, stack: seq<string>)
    requires AtSlash(s, i) && At(s, i + 1) == '.' && (i + 2 == |s| || AtSlash(s, i + 2))
    ensures Resolve(stack, Names(s, i)) == Resolve(stack, Names(s, i + 2))
    ensures i + 2 == |s| ==> !Ordinary(LastName(s))
  {
    SlashFromAt(s, i + 1, i + 2);
    if i + 2 == |s| {
      LastNameAt(s, i);
    }
    assert NameAt(s, i) == ".";
  }

  lemma DotDotName(s: string, i: nat, stack: seq<string>)
    requires AtSlash(s, i) && At(s, i + 1) == '.' && At(s, i + 2) == '.'
    requires i + 3 == |s| || AtSlash(s, i + 3)
    ensures Resolve(stack, Names(s, i)) == Resolve(Step(stack, ".."), Names(s, i + 3))
    ensures i + 3 == |s| ==> !Ordinary(LastName(s))
  {
    SlashFromAt(s, i + 1, i + 3);
    if i + 3 == |s| {
      LastNameAt(s, i);
    }
    assert NameAt(s, i) == "..";
  }

  // The slash at i is copied exactly when an ordinary component, or nothing
  // but the end of the path, follows it.
  lemma CopiedName(s: string, i: nat)
    requires AtSlash(s, i) && '\0' !in s
    requires At(s, i + 1) != '/'
    requires At(s, i + 1) == '.' ==> !Ends(At(s, i + 2))
    requires At(s, i + 1) == '.' && At(s, i + 2) == '.' ==> !Ends(At(s, i + 3))
    ensures Copying(s, i, i + 1)
  {
    var e := SlashFrom(s, i + 1);
    assert Ends(At(s, e));
    assert e > i + 1 ==> NameAt(s, i)[0] == At(s, i + 1);
    assert e > i + 2 ==> NameAt(s, i)[1] == At(s, i + 2);
  }

  lemma FinishedName(s: string, b: nat, i: nat, stack: seq<string>)
    requires Copying(s, b, i) && (AtSlash(s, i) || i == |s|)
    ensures NameAt(s, b) == s[b + 1..i]
    ensures b + 1 == |s| || Ordinary(s[b + 1..i])
    ensures b + 1 < |s| ==>
      Resolve(stack, Names(s, b)) == Resolve(stack + [s[b + 1..i]], Names(s, i))
    ensures b + 1 == |s| ==> Resolve(stack, Names(s, b)) == stack
  {
    SlashFromAt(s, b + 1, i);
  }

  lemma RenderPushed(stack: seq<string>, s: string, b: nat, i: nat)
    requires b < i <= |s| && s[b] == '/'
    ensures Render(stack + [s[b + 1..i]]) == Render(stack) + s[b..i]
  {
    assert (stack + [s[b + 1..i]])[..|stack|] == stack;
    assert s[b..i] == "/" + s[b + 1..i];
  }

  // Stepping back to the slash before the last component drops that component.
  lemma DroppedLast(stack: seq<string>, r: nat)
    requires stack != [] && AllOrdinary(stack)
    requires r < |Render(stack)| && Render(stack)[r] == '/'
    requires forall k :: r < k < |Render(stack)| ==> Render(stack)[k] != '/'
    ensures Render(stack)[..r] == Render(stack[..|stack| - 1])
  {
    var front, last := Render(stack[..|stack| - 1]), stack[|stack| - 1];
    var all := front + "/" + last;
    assert Ordinary(last);
    assert all[|front|] == '/';
    assert forall k :: |front| < k < |all| ==> all[k] == last[k - |front| - 1];
  }

  lemma RenderEmpty(stack: seq<string>)
    ensures stack == [] ==> Render(stack) == ""
  {
  }

  // Lines 527-528: back over the last component written, if there is one.
  method DropLast(resolved: array<char>, len: nat, ghost stack: seq<string>) returns (r: nat)
    requires len <= resolved.Length && AllOrdinary(stack)
    requires resolved[..len] == Render(stack)
    ensures r <= len && resolved[..r] == Render(Step(stack, ".."))
  {
    hide Render, AllOrdinary;
    r := len;
    RenderEmpty(stack);
    while r > 0
      invariant 0 <= r <= len
      invariant forall k :: r <= k < len ==> resolved[k] != '/'
    {
      r := r - 1;
      if resolved[r] == '/' {
        break;
      }
    }
    if stack != [] {
      RenderStartsWithSlash(stack);
      assert resolved[..len][0] == '/';
      assert r < len && resolved[..len][r] == '/';
      DroppedLast(stack, r);
    }
  }

  // Where the automaton stands: components before b are on the stack, and the
  // characters from b to i of an ordinary component are copied as they are.
  ghost predicate Standing(s: string, stack: seq<string>, b: nat, i: nat) {
    b <= i <= |s| < PATH_MAX && '\0' !in s && AllOrdinary(stack) &&
    Target(s) == Resolve(stack, Names(s, b)) &&
    (b < i ==> Copying(s, b, i)) &&
    (b == i ==> AtSlash(s, b) || b == |s|) &&
    (i > PATH_MAX - 2 ==> !Ordinary(LastName(s)))
  }

  // Before a slash is looked at, the component in front of it is complete.
  lemma Pushed(s: string, stack: seq<string>, b: nat, i: nat) returns (next: seq<string>)
    requires Standing(s, stack, b, i) && AtSlash(s, i)
    ensures Standing(s, next, i, i)
    ensures Render(next) == Render(stack) + s[b..i]
  {
    hide Resolve, Names, Render;
    if b < i {
      next := stack + [s[b + 1..i]];
      FinishedName(s, b, i, stack);
      RenderPushed(stack, s, b, i);
    } else {
      next := stack;
    }
  }

  lemma StandingSkips(s: string, stack: seq<string>, i: nat)
    requires Standing(s, stack, i, i) && AtSlash(s, i) && i < PATH_MAX - 2
    ensures At(s, i + 1) == '/' ==> Standing(s, stack, i + 1, i + 1)
    ensures At(s, i + 1) == '.' && Ends(At(s, i + 2)) ==> Standing(s, stack, i + 2, i + 2)
    ensures At(s, i + 1) == '.' && At(s, i + 2) == '.' && Ends(At(s, i + 3)) ==>
      Standing(s, Step(stack, ".."), i + 3, i + 3)
  {
    hide Resolve, Names, LastName;
    if At(s, i + 1) == '/' {
      EmptyName(s, i, stack);
    } else if At(s, i + 1) == '.' && Ends(At(s, i + 2)) {
      DotName(s, i, stack);
    } else if At(s, i + 1) == '.' && At(s, i + 2) == '.' && Ends(At(s, i + 3)) {
      DotDotName(s, i, stack);
    }
  }

  lemma StandingCopies(s: string, stack: seq<string>, b: nat, i: nat)
    requires Standing(s, stack, b, i) && i < |s| && i < PATH_MAX - 2
    requires if s[i] == '/' then b == i && Copying(s, i, i + 1) else true
    ensures Standing(s, stack, b, i + 1)
    ensures s[b..i + 1] == s[b..i] + [s[i]]
  {
    hide Resolve, Names, LastName;
  }

  function Tidied(s: string): string {
    if s == "" then "/" else Trimmed(s)
  }

  lemma TidiedRender(stack: seq<string>)
    requires AllOrdinary(stack)
    ensures Tidied(Render(stack)) == Tidied(Render(stack) + "/") == Directory(stack)
  {
    hide Render, AllOrdinary;
    RenderLast(stack);
    assert (Render(stack) + "/")[..|Render(stack)|] == Render(stack);
  }

  // An ordinary last component has been copied as far as the path goes.
  lemma LastComponent(s: string, stack: seq<string>, b: nat)
    requires Copying(s, b, |s|) && b + 1 < |s| && AllOrdinary(stack)
    requires Target(s) == Resolve(stack, Names(s, b))
    ensures Ordinary(s[b + 1..]) && AllOrdinary(stack + [s[b + 1..]])
    ensures Canonical(s) == Render(stack + [s[b + 1..]]) == Render(stack) + s[b..]
  {
    hide Names, Resolve, Render;
    FinishedName(s, b, |s|, stack);
    assert s[b + 1..] == s[b + 1..|s|] && s[b..] == s[b..|s|];
    NoNamesLeft(s, stack + [s[b + 1..]]);
    RenderPushed(stack, s, b, |s|);
  }

  // The whole path has been read.
  lemma StandingAtEnd(s: string, stack: seq<string>, b: nat)
    requires Standing(s, stack, b, |s|)
    ensures Tidied(Render(stack) + s[b..]) == Canonical(s)
  {
    hide Names, Resolve, LastName, Render, AllOrdinary, Tidied, Directory, Ordinary, NameAt;
    if b == |s| {
      NoNamesLeft(s, stack);
      TidiedRender(stack);
      assert Render(stack) + s[b..] == Render(stack);
    } else if b + 1 < |s| {
      LastComponent(s, stack, b);
      TidiedRender(stack + [s[b + 1..]]);
      DirectoryIsRender(stack, s[b + 1..]);
    } else {
      FinishedName(s, b, |s|, stack);
      TidiedRender(stack);
      assert s[b..] == "/";
    }
  }

  lemma DirectoryIsRender(stack: seq<string>, name: string)
    ensures Directory(stack + [name]) == Render(stack + [name])
  {
  }

  lemma NoNamesLeft(s: string, stack: seq<string>)
    ensures Resolve(stack, Names(s, |s|)) == stack
  {
  }

  lemma RenderLast(stack: seq<string>)
    requires AllOrdinary(stack)
    ensures stack == [] <==> Render(stack) == ""
    ensures stack != [] ==> |Render(stack)| > 1 && Render(stack)[|Render(stack)| - 1] != '/'
  {
    if stack != [] {
      assert Ordinary(stack[|stack| - 1]);
    }
  }

  // One character is left unread, and it is a slash.
  lemma StandingBeforeSlash(s: string, stack: seq<string>, b: nat)
    requires |s| == PATH_MAX - 1 && Standing(s, stack, b, |s| - 1) && s[|s| - 1] == '/'
    ensures Tidied(Render(stack) + s[b..|s| - 1]) == Written(s)
  {
    hide Names, Resolve, LastName, Render;
    var i := |s| - 1;
    LastNameAt(s, i);
    var next := Pushed(s, stack, b, i);
    CopiedName(s, i);
    FinishedName(s, i, |s|, next);
    RenderLast(next);
  }

  // One character of an ordinary last component is left unread.
  lemma StandingBeforeLast(s: string, stack: seq<string>, b: nat)
    requires |s| == PATH_MAX - 1 && Standing(s, stack, b, |s| - 1) && s[|s| - 1] != '/'
    ensures Tidied(Render(stack) + s[b..|s| - 1]) == Written(s)
  {
    hide Names, Resolve, LastName, Render, Trimmed, Ordinary;
    LastNameAt(s, b);
    LastComponent(s, stack, b);
    ButLast(Render(stack), s, b);
  }

  lemma ButLast(front: string, s: string, b: nat)
    requires b < |s|
    ensures (front + s[b..])[..|front + s[b..]| - 1] == front + s[b..|s| - 1]
  {
  }

  lemma StandingAtStop(s: string, stack: seq<string>, b: nat, i: nat)
    requires Standing(s, stack, b, i) && (i == |s| || i >= PATH_MAX - 2)
    ensures Tidied(Render(stack) + s[b..i]) == Written(s)
  {
    hide Names, Resolve, LastName, Render, Canonical;
    if i == |s| {
      StandingAtEnd(s, stack, b);
      WholeAtEnd(s, stack, b);
    } else {
      if s[i] == '/' {
        StandingBeforeSlash(s, stack, b);
      } else {
        StandingBeforeLast(s, stack, b);
      }
    }
  }

  // At the end of the path nothing has been cut.
  lemma WholeAtEnd(s: string, stack: seq<string>, b: nat)
    requires Standing(s, stack, b, |s|)
    ensures Written(s) == Canonical(s)
  {
    hide Names, Resolve, LastName, Render, Canonical;
    if |s| > PATH_MAX - 2 {
      assert !CutShort(s);
    }
    WrittenIsCanonical(s);
  }

  // Lines 480-545: the normalised path is written into the caller's buffer.
  method CanonPath(path: string, cwd: string, resolved: array<char>) returns (len: nat)
    requires IsAbsolute(cwd) && '\0' !in path
    requires |Absolute(path, cwd)| < PATH_MAX && resolved.Length == PATH_MAX
    modifies resolved
    ensures len < PATH_MAX && resolved[len] == '\0'
    ensures resolved[..len] == Written(Absolute(path, cwd))
    ensures resolved[..len] == Canonical(Absolute(path, cwd)) <==> !CutShort(Absolute(path, cwd))
  {
    hide Names, Resolve, Render, LastName, Standing, Written, AllOrdinary, CutShort;
    var copy := Absolute(path, cwd);
    var i, r := 0, 0;
    ghost var stack: seq<string>, b: nat := [], 0;
    StandingAtStart(copy);
    while i < |copy| && i < PATH_MAX - 2
      invariant 0 <= b <= i <= |copy|
      invariant 0 <= r <= i && r <= PATH_MAX - 2
      invariant Standing(copy, stack, b, i)
      invariant resolved[..r] == Render(stack) + copy[b..i]
      decreases |copy| - i
    {
      if copy[i] == '/' {
        stack := Pushed(copy, stack, b, i);
        b := i;
        StandingSkips(copy, stack, i);
        if At(copy, i + 1) == '/' {
          i, b := i + 1, i + 1;
          continue;
        } else if At(copy, i + 1) == '.' {
          if Ends(At(copy, i + 2)) {
            i, b := i + 2, i + 2;
            continue;
          } else if At(copy, i + 2) == '.' && Ends(At(copy, i + 3)) {
            StandingOrdinary(copy, stack, i);
            r := DropLast(resolved, r, stack);
            i, b, stack := i + 3, i + 3, Step(stack, "..");
            continue;
          }
        }
        CopiedName(copy, i);
      }
      StandingCopies(copy, stack, b, i);
      resolved[r] := copy[i];
      r, i := r + 1, i + 1;
    }
    StandingAtStop(copy, stack, b, i);
    if r > 1 && resolved[r - 1] == '/' {
      r := r - 1;
    } else if r == 0 {
      resolved[0] := '/';
      r := 1;
    }
    resolved[r] := '\0';
    len := r;
    WrittenIsCanonical(copy);
  }

  lemma StandingAtStart(s: string)
    requires IsAbsolute(s) && |s| < PATH_MAX
    ensures Standing(s, [], 0, 0) && Render([]) + s[0..0] == ""
  {
  }

  lemma StandingOrdinary(s: string, stack: seq<string>, i: nat)
    requires Standing(s, stack, i, i)
    ensures AllOrdinary(stack)
  {
  }

  // ---- the document root (lines 669-675) ----------------------------------

  // strncmp over the root's length, then the byte after it.
  predicate Accepted(phys: string, docroot: string) {
    docroot <= phys && Ends(At(phys, |docroot|))
  }

  lemma {:induction false} RenderConcat(a: seq<string>, b: seq<string>)
    ensures Render(a + b) == Render(a) + Render(b)
  {
    if b == [] {
      assert a + b == a;
    } else {
      RenderConcat(a, b[..|b| - 1]);
      assert (a + b)[..|a + b| - 1] == a + b[..|b| - 1];
    }
  }

  lemma NameAtPrefix(root: string, rest: string, i: nat)
    requires i < |root| && (rest == "" || rest[0] == '/')
    ensures NameAt(root + rest, i) == NameAt(root, i)
    ensures SlashFrom(root + rest, i + 1) == SlashFrom(root, i + 1)
  {
    var e := SlashFrom(root, i + 1);
    assert (root + rest)[i + 1..e] == root[i + 1..e];
    SlashFromAt(root + rest, i + 1, e);
  }

  // A path cut at a slash names a prefix of its components.
  lemma {:induction false} PrefixNames(root: string, rest: string, i: nat)
    requires i <= |root| && (rest == "" || rest[0] == '/')
    ensures Names(root + rest, i) == Names(root, i) + Names(rest, 0)
    decreases |root| - i
  {
    hide Names, NameAt, SlashFrom;
    if i == |root| {
      NamesEnd(root);
      NamesTail(root, rest, 0);
    } else {
      NameAtPrefix(root, rest, i);
      NamesNext(root, i);
      NamesNext(root + rest, i);
      PrefixNames(root, rest, SlashFrom(root, i + 1));
    }
  }

  // For a normalised root other than "/", the byte test on a normalised path
  // accepts exactly the paths whose components begin with the root's; with the
  // root "/" it accepts "/" alone.
  lemma DocrootTest(raw: string, root: seq<string>)
    requires AllOrdinary(root) && '\0' !in raw
    ensures root != [] ==> (Accepted(Canonical(raw), Render(root)) <==> root <= Target(raw))
    ensures Accepted(Canonical(raw), "/") <==> Target(raw) == []
  {
    hide Names, Resolve;
    var target := Target(raw);
    TargetIsOrdinary(raw);
    if target != [] {
      RenderStartsWithSlash(target);
      assert target == [target[0]] + target[1..];
      RenderFront(target[0], target[1..]);
      assert Ordinary(target[0]);
      assert Render(target)[1] == target[0][0];
    }
    if root != [] {
      DocrootPrefix(target, root);
    }
  }

  // The path "/a" lies below the root "/" and is turned away.
  lemma RootAcceptsNothingElse()
    ensures Canonical("/a") == "/a" && !Accepted(Canonical("/a"), "/")
  {
    hide Names, Resolve, Accepted, Canonical;
    NamesEnd("");
    Appending("", "a");
    assert "" + "/" + "a" == "/a" && [] + ["a"] == ["a"];
    EmptyLeadsNowhere();
    OneName("/a", "a");
    DocrootTest("/a", []);
  }

  lemma EmptyLeadsNowhere()
    ensures Target("") == []
  {
  }

  lemma OneName(path: string, name: string)
    requires Target(path) == [name]
    ensures Canonical(path) == "/" + name
  {
    hide Target;
    RenderFront(name, []);
    RenderEmpty([]);
    assert [name] + [] == [name] && "/" + name + "" == "/" + name;
  }

  lemma {:induction false} RenderIsPlain(stack: seq<string>)
    requires AllOrdinary(stack)
    ensures '\0' !in Render(stack)
  {
    if stack != [] {
      RenderIsPlain(stack[..|stack| - 1]);
      assert Ordinary(stack[|stack| - 1]);
    }
  }

  lemma DocrootPrefix(target: seq<string>, root: seq<string>)
    requires AllOrdinary(root) && AllOrdinary(target) && root != []
    ensures Accepted(Directory(target), Render(root)) <==> root <= target
  {
    hide Names, Resolve, Render;
    RenderLast(root);
    RenderLast(target);
    var whole, head := Directory(target), Render(root);
    if root <= target {
      var rest := target[|root|..];
      assert target == root + rest;
      RenderConcat(root, rest);
      RenderLast(rest);
      if rest != [] {
        RenderStartsWithSlash(rest);
      }
    }
    if Accepted(whole, head) {
      var rest := whole[|head|..];
      assert whole == head + rest;
      RenderIsPlain(target);
      assert rest != "" ==> rest[0] == At(whole, |head|) && rest[0] in whole;
      if target == [] {
        RenderStartsWithSlash(root);
      } else {
        PrefixNames(head, rest, 0);
        NamesOfRender(root);
        NamesOfRender(target);
      }
    }
  }
}
