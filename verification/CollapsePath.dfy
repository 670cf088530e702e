// collapse_path (external/lhasa/lib/lha_file_header.c), which rewrites a path in place, against the
// evaluation of its components on a stack.

module CollapsePath {

  // The components that a slash ends, and what comes after the last slash.
  datatype Parsed = Parsed(ended: seq<string>, last: string)

  function Parse(path: string): (r: Parsed) {
    if path == "" then Parsed([], "")
    else
      var before := Parse(path[..|path| - 1]);
      if path[|path| - 1] == '/' then Parsed(before.ended + [before.last], "")
      else Parsed(before.ended, before.last + [path[|path| - 1]])
  }

  function Render(cs: seq<string>): (r: string) {
    if cs == [] then "" else Render(cs[..|cs| - 1]) + cs[|cs| - 1] + "/"
  }

  ghost predicate Plain(c: string) {
    '/' !in c
  }

  ghost predicate AllPlain(cs: seq<string>) {
    forall i :: 0 <= i < |cs| ==> Plain(cs[i])
  }

  // Parse is the one way to cut a path at its slashes.
  lemma {:induction false} ParseCuts(path: string)
    ensures Render(Parse(path).ended) + Parse(path).last == path
    ensures AllPlain(Parse(path).ended) && Plain(Parse(path).last)
  {
    hide Render;
    RenderNone();
    if path != "" {
      var n := |path| - 1;
      var before := Parse(path[..n]);
      ParseCuts(path[..n]);
      RenderSnoc(before.ended, before.last);
      var r, last, c := Render(before.ended), before.last, path[n];
      assert path == (r + last) + [c] == r + (last + [c]);
    }
  }

  lemma RenderNone()
    ensures Render([]) == ""
  {
  }

  lemma {:induction false} ParseOnly(cs: seq<string>, last: string)
    requires AllPlain(cs) && Plain(last)
    ensures Parse(Render(cs) + last) == Parsed(cs, last)
    decreases |cs|, |last|
  {
    var path := Render(cs) + last;
    if last != "" {
      var n := |last| - 1;
      ParseOnly(cs, last[..n]);
      assert path[..|path| - 1] == Render(cs) + last[..n];
      assert last == last[..n] + [last[n]];
    } else if cs != [] {
      var n := |cs| - 1;
      ParseOnly(cs[..n], cs[n]);
      assert path[..|path| - 1] == Render(cs[..n]) + cs[n];
      assert cs == cs[..n] + [cs[n]];
    }
  }

  lemma RenderSnoc(cs: seq<string>, c: string)
    ensures Render(cs + [c]) == Render(cs) + c + "/"
  {
    assert (cs + [c])[..|cs|] == cs;
  }

  // ---- what a path means ----

  // An empty component and "." stay where they are, ".." goes up one, but not above the start.
  function Walk(stack: seq<string>, c: string): (r: seq<string>) {
    if c == "" || c == "." then stack
    else if c == ".." then (if stack == [] then [] else stack[..|stack| - 1])
    else stack + [c]
  }

  function Evaluate(cs: seq<string>): (stack: seq<string>) {
    if cs == [] then [] else Walk(Evaluate(cs[..|cs| - 1]), cs[|cs| - 1])
  }

  // One leading slash is kept; what comes after the last slash is not looked at.
  function Collapsed(path: string): (r: string) {
    if path != "" && path[0] == '/' then "/" + CollapsedBody(path[1..]) else CollapsedBody(path)
  }

  function CollapsedBody(path: string): (r: string) {
    Render(Evaluate(Parse(path).ended)) + Parse(path).last
  }

  ghost predicate Ordinary(c: string) {
    c != "" && c != "." && c != ".." && Plain(c)
  }

  ghost predicate AllOrdinary(cs: seq<string>) {
    forall i :: 0 <= i < |cs| ==> Ordinary(cs[i])
  }

  lemma {:induction false} EvaluateIsOrdinary(cs: seq<string>)
    requires AllPlain(cs)
    ensures AllOrdinary(Evaluate(cs))
    ensures |Render(Evaluate(cs))| <= |Render(cs)|
  {
    if cs != [] {
      var n := |cs| - 1;
      EvaluateIsOrdinary(cs[..n]);
      var stack := Evaluate(cs[..n]);
      assert Plain(cs[n]);
      if Walk(stack, cs[n]) == stack + [cs[n]] { RenderSnoc(stack, cs[n]); }
    }
  }

  lemma {:induction false} OrdinaryStays(cs: seq<string>)
    requires AllOrdinary(cs)
    ensures Evaluate(cs) == cs
  {
    hide Plain, Render;
    if cs != [] {
      var init, last := cs[..|cs| - 1], cs[|cs| - 1];
      assert Ordinary(last);
      OrdinaryStays(init);
      hide Ordinary;
      assert cs == init + [last];
    }
  }

  // No component that a slash ends is empty, "." or "..", and the path has not grown.
  lemma CollapsedHasNoDots(path: string)
    ensures var r := Collapsed(path);
      var body := if r != "" && r[0] == '/' then r[1..] else r;
      && AllOrdinary(Parse(body).ended)
      && (r != "" && r[0] == '/' <==> path != "" && path[0] == '/')
      && |r| <= |path|
  {
    var rest := if path != "" && path[0] == '/' then path[1..] else path;
    ParseCuts(rest);
    var stack, last := Evaluate(Parse(rest).ended), Parse(rest).last;
    EvaluateIsOrdinary(Parse(rest).ended);
    ParseOnly(stack, last);
    BodyStart(stack, last);
  }

  lemma BodyStart(stack: seq<string>, last: string)
    requires AllOrdinary(stack) && Plain(last)
    ensures var body := Render(stack) + last; body == "" || body[0] != '/'
  {
    if stack != [] {
      FirstOfRender(stack);
    }
  }

  lemma {:induction false} FirstOfRender(stack: seq<string>)
    requires AllOrdinary(stack) && stack != []
    ensures |Render(stack)| > 0 && Render(stack)[0] != '/'
  {
    if |stack| == 1 {
      assert Ordinary(stack[0]) && Render(stack[..0]) == "";
    } else {
      FirstOfRender(stack[..|stack| - 1]);
    }
  }

  // ---- what the components do ----

  function WalkOn(stack: seq<string>, cs: seq<string>): (r: seq<string>) {
    if cs == [] then stack else Walk(WalkOn(stack, cs[..|cs| - 1]), cs[|cs| - 1])
  }

  lemma {:induction false} EvaluateConcat(cs: seq<string>, ds: seq<string>)
    ensures Evaluate(cs + ds) == WalkOn(Evaluate(cs), ds)
  {
    if ds == [] {
      assert cs + ds == cs;
    } else {
      EvaluateConcat(cs, ds[..|ds| - 1]);
      assert (cs + ds)[..|cs + ds| - 1] == cs + ds[..|ds| - 1];
    }
  }

  lemma {:induction false} RenderConcat(cs: seq<string>, ds: seq<string>)
    ensures Render(cs + ds) == Render(cs) + Render(ds)
  {
    if ds == [] {
      assert cs + ds == cs;
    } else {
      RenderConcat(cs, ds[..|ds| - 1]);
      assert (cs + ds)[..|cs + ds| - 1] == cs + ds[..|ds| - 1];
    }
  }

  // Components in front of a path are walked first.
  lemma BodyOf(cs: seq<string>, rest: string)
    requires AllPlain(cs)
    ensures CollapsedBody(Render(cs) + rest)
         == Render(WalkOn(Evaluate(cs), Parse(rest).ended)) + Parse(rest).last
  {
    hide Render, Walk, Evaluate, WalkOn, Parse, Plain;
    var ds, last := Parse(rest).ended, Parse(rest).last;
    ParseCuts(rest);
    RenderConcat(cs, ds);
    assert Render(cs) + rest == Render(cs + ds) + last;
    ParseOnly(cs + ds, last);
    EvaluateConcat(cs, ds);
  }

  lemma RenderOne(c: string)
    ensures Render([c]) == c + "/"
  {
    assert [c][..0] == [];
  }

  // An empty component and "." change nothing, and neither does ".." at the start of a path.
  lemma NothingIsWalked(cs: seq<string>, c: string, rest: string)
    requires AllPlain(cs) && (c == "" || c == "." || (c == ".." && cs == []))
    ensures CollapsedBody(Render(cs) + (c + "/" + rest)) == CollapsedBody(Render(cs) + rest)
  {
    hide Render, Parse;
    RenderConcat(cs, [c]);
    RenderOne(c);
    assert Render(cs + [c]) + rest == Render(cs) + (c + "/" + rest);
    BodyOf(cs + [c], rest);
    BodyOf(cs, rest);
    assert (cs + [c])[..|cs|] == cs;
  }

  // ".." takes away the component in front of it.
  lemma UpRemoves(cs: seq<string>, c: string, rest: string)
    requires AllPlain(cs) && Ordinary(c)
    ensures CollapsedBody(Render(cs) + (c + "/../" + rest)) == CollapsedBody(Render(cs) + rest)
  {
    hide Render, Parse;
    var up := [c, ".."];
    assert up == [c] + [".."];
    RenderConcat([c], [".."]);
    RenderOne(c);
    RenderOne("..");
    RenderConcat(cs, up);
    assert Render(up) == c + "/../";
    assert Render(cs + up) + rest == Render(cs) + (c + "/../" + rest);
    BodyOf(cs + up, rest);
    BodyOf(cs, rest);
    UpIsWalked(cs, c);
  }

  lemma UpIsWalked(cs: seq<string>, c: string)
    requires Ordinary(c)
    ensures Evaluate(cs + [c, ".."]) == Evaluate(cs)
  {
    var up := [c, ".."];
    assert (cs + up)[..|cs| + 1] == cs + [c] && (cs + [c])[..|cs|] == cs;
    assert Walk(Evaluate(cs), c) == Evaluate(cs) + [c];
    assert (Evaluate(cs) + [c])[..|Evaluate(cs)|] == Evaluate(cs);
  }

  lemma CollapsedTwice(path: string)
    ensures Collapsed(Collapsed(path)) == Collapsed(path)
  {
    var rest := if path != "" && path[0] == '/' then path[1..] else path;
    ParseCuts(rest);
    var stack, last := Evaluate(Parse(rest).ended), Parse(rest).last;
    EvaluateIsOrdinary(Parse(rest).ended);
    ParseOnly(stack, last);
    BodyStart(stack, last);
    OrdinaryStays(stack);
    assert ("/" + CollapsedBody(rest))[1..] == CollapsedBody(rest);
  }

  // ---- in place ----

  ghost predicate IsString(a: seq<char>, n: nat) {
    n < |a| && a[n] == '\0' && forall i :: 0 <= i < n ==> a[i] != '\0'
  }

  // Back from the end of the path written so far to the start of its last component.
  method BackUp(a: array<char>, start: nat, currpath: nat, ghost stack: seq<string>) returns (w: nat)
    requires start < currpath <= a.Length && stack != [] && AllOrdinary(stack)
    requires a[start..currpath] == Render(stack)
    ensures start <= w < currpath && a[start..w] == Render(stack[..|stack| - 1])
  {
    hide Render;
    ghost var lower, c := Render(stack[..|stack| - 1]), stack[|stack| - 1];
    ghost var all := a[start..currpath];
    LastOfRender(stack);
    assert forall i :: 0 <= i < |c| ==> all[|lower| + i] == c[i] != '/';
    assert forall i :: |lower| <= i < |lower| + |c| ==> all[i] == c[i - |lower|] != '/';
    assert lower != "" ==> lower[|lower| - 1] == all[|lower| - 1] == '/';
    assert forall i :: 0 <= i < |all| ==> a[start + i] == all[i];
    w := currpath - 1;
    while w > start && a[w - 1] != '/'
      invariant start + |lower| <= w <= currpath - 1
    {
      assert a[w - 1] == all[w - 1 - start];
      w := w - 1;
    }
    assert w == start + |lower| by {
      assert w > start ==> a[w - 1] == all[w - 1 - start];
    }
    assert a[start..w] == all[..|lower|] == lower;
  }

  lemma LastOfRender(stack: seq<string>)
    requires stack != [] && AllOrdinary(stack)
    ensures var lower, c := Render(stack[..|stack| - 1]), stack[|stack| - 1];
      Render(stack) == lower + c + "/" && Ordinary(c) && (lower != "" ==> lower[|lower| - 1] == '/')
  {
    var before := stack[..|stack| - 1];
    assert Ordinary(stack[|stack| - 1]);
    if before != [] { assert Render(before) == Render(before[..|before| - 1]) + before[|before| - 1] + "/"; }
  }

  // What has been read stands collapsed from the start on, and its last component after that.
  ghost predicate Written(a: seq<char>, start: nat, currpath: nat, w: nat, p: Parsed) {
    && start <= currpath <= w <= |a|
    && a[start..currpath] == Render(Evaluate(p.ended)) && a[currpath..w] == p.last
    && AllPlain(p.ended) && Plain(p.last)
  }

  // A slash settles the component that it ends.
  method Settle(a: array<char>, start: nat, currpath: nat, w: nat, ghost stack: seq<string>, ghost last: string)
    returns (w': nat)
    requires start <= currpath < w <= a.Length && AllOrdinary(stack) && Plain(last)
    requires a[start..currpath] == Render(stack) && a[currpath..w] == last + "/"
    ensures start <= w' <= w && a[start..w'] == Render(Walk(stack, last))
  {
    hide Render, AllOrdinary, Plain;
    LastAt(a[..], currpath, w, last);
    var length := w - currpath - 1;
    if length == 0 || (length == 1 && a[currpath] == '.') {
      w' := currpath;
    } else if length == 2 && a[currpath] == '.' && a[currpath + 1] == '.' {
      assert last == "..";
      if currpath == start {
        w' := start;
        if stack != [] { FirstOfRender(stack); }
      } else {
        NoneRendersEmpty(stack);
        w' := BackUp(a, start, currpath, stack);
      }
    } else {
      RenderSnoc(stack, last);
      w' := w;
      assert a[start..w] == a[start..currpath] + a[currpath..w];
      assert Render(stack) + (last + "/") == Render(stack) + last + "/";
    }
  }

  lemma LastAt(a: seq<char>, currpath: nat, w: nat, last: string)
    requires currpath < w <= |a| && a[currpath..w] == last + "/"
    ensures |last| == w - currpath - 1
    ensures |last| >= 1 ==> a[currpath] == last[0]
    ensures |last| >= 2 ==> a[currpath + 1] == last[1]
  {
    var all := a[currpath..w];
    assert |last| >= 1 ==> all[0] == last[0];
    assert |last| >= 2 ==> all[1] == last[1];
  }

  lemma NoneRendersEmpty(stack: seq<string>)
    ensures stack == [] ==> Render(stack) == ""
  {
  }

  lemma ParseSlash(path: string)
    ensures var p := Parse(path);
      && Parse(path + ['/']) == Parsed(p.ended + [p.last], "")
      && Evaluate(p.ended + [p.last]) == Walk(Evaluate(p.ended), p.last)
  {
    var p := Parse(path);
    assert (path + ['/'])[..|path|] == path;
    assert (p.ended + [p.last])[..|p.ended|] == p.ended;
  }

  lemma ParseOther(path: string, c: char)
    requires c != '/'
    ensures Parse(path + [c]) == Parsed(Parse(path).ended, Parse(path).last + [c])
  {
    assert (path + [c])[..|path|] == path;
  }

  // One character is copied down.
  method Advance(a: array<char>, start: nat, currpath: nat, w: nat, r: nat, ghost path: string)
    returns (currpath': nat, w': nat)
    requires Written(a[..], start, currpath, w, Parse(path)) && w <= r < a.Length
    modifies a
    ensures Written(a[..], start, currpath', w', Parse(path + [old(a[r])]))
    ensures w' <= r + 1 && a[..start] == old(a[..start]) && forall i :: r < i < a.Length ==> a[i] == old(a[i])
    ensures w' <= w + 1 && forall i :: 0 <= i < w' ==> a[i] == if i < w then old(a[i]) else old(a[r])
  {
    hide Parse, Evaluate, Render;
    ghost var p := Parse(path);
    var c := a[r];
    a[w] := c;
    currpath', w' := currpath, w + 1;
    assert a[start..currpath] == Render(Evaluate(p.ended)) && a[currpath..w'] == p.last + [c];
    if c == '/' {
      ParseSlash(path);
      EvaluateIsOrdinary(p.ended);
      w' := Settle(a, start, currpath, w', Evaluate(p.ended), p.last);
      currpath' := w';
    } else {
      ParseOther(path, c);
    }
  }

  // collapse_path
  method Collapse(a: array<char>, ghost n: nat) returns (w: nat)
    requires IsString(a[..], n)
    modifies a
    ensures w <= n && IsString(a[..], w) && a[..w] == Collapsed(old(a[..n]))
  {
    hide Parse, Evaluate, Render;
    ghost var path := a[..n];
    var start := if a[0] == '/' then 1 else 0;
    ghost var rest := path[start..];
    var currpath: nat, r: nat := start, start;
    w := start;
    NothingWritten(a[..], start);
    assert rest[..0] == "";
    while a[r] != '\0'
      invariant start <= w <= r <= n && a[..start] == path[..start]
      invariant forall i :: r <= i < a.Length ==> a[i] == old(a[i])
      invariant forall i :: 0 <= i < w ==> a[i] != '\0'
      invariant Written(a[..], start, currpath, w, Parse(rest[..r - start]))
      decreases n - r
    {
      assert r < n && a[r] == path[r] == rest[r - start];
      assert rest[..r + 1 - start] == rest[..r - start] + [a[r]];
      currpath, w := Advance(a, start, currpath, w, r, rest[..r - start]);
      r := r + 1;
    }
    assert r == n && rest[..n - start] == rest;
    Together(a[..], start, currpath, w);
    a[w] := '\0';
    assert a[..start] == path[..start];
  }

  lemma Together(a: seq<char>, start: nat, currpath: nat, w: nat)
    requires start <= currpath <= w <= |a|
    ensures a[..w] == a[..start] + (a[start..currpath] + a[currpath..w])
  {
  }

  lemma NothingWritten(a: seq<char>, start: nat)
    requires start <= |a|
    ensures Written(a, start, start, start, Parse(""))
  {
  }
}
