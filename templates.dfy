/** The swap engine: swaps replace a literal key by a value in file paths
    and file contents. A swap applies to paths, contents or both, and only
    to files whose path matches its optional regular expression. Values
    come literally or from a template rendered against the variables.

    Regular expression matching, template rendering and the text-or-binary
    test are given as functions. */
module Templates {
  import opened Wrappers
  import opened Strings
  import opened SortedMaps
  import opened Paths
  import opened Files

  datatype SwapKind = All | Content | Path

  /** A swap; `path` is the source text of its regular expression. */
  datatype Swap = Swap(
    key: string,
    valTemplate: Option<string>,
    val: Option<string>,
    path: Option<string>,
    kind: SwapKind)

  /** Whether a pattern matches somewhere in a text. */
  type RegexMatcher = (string, string) -> bool

  /** Renders a template against the variables, or reports why not. */
  type Renderer = (string, Entries<string>) -> Result<string>

  /** Whether file content is text rather than binary. */
  type TextDetector = string -> bool

  const NEITHER_VAL: string := "each swap should have either `val` or `val_template`"

  /** `match_path`: path and all-purpose swaps whose pattern, if any,
      matches the path. */
  function MatchPath(swap: Swap, p: string, isMatch: RegexMatcher): (r: bool)
    ensures r <==> swap.kind != Content && (swap.path.None? || isMatch(swap.path.value, p))
  {
    match swap.kind
    case Path | All => swap.path.None? || isMatch(swap.path.value, p)
    case Content => false
  }

  /** `match_content`: content and all-purpose swaps whose pattern, if any,
      matches the path. */
  function MatchContent(swap: Swap, p: string, isMatch: RegexMatcher): (r: bool)
    ensures r <==> swap.kind != Path && (swap.path.None? || isMatch(swap.path.value, p))
  {
    match swap.kind
    case Content | All => swap.path.None? || isMatch(swap.path.value, p)
    case Path => false
  }

  /** The swaps that apply to the path `p`, in declaration order. */
  function PathSwaps(swaps: seq<Swap>, p: string, isMatch: RegexMatcher): (r: seq<Swap>)
    decreases |swaps|
  {
    if swaps == [] then []
    else
      var init := swaps[..|swaps| - 1];
      var last := swaps[|swaps| - 1];
      assert swaps == init + [last];
      PathSwaps(init, p, isMatch) + (if MatchPath(last, p, isMatch) then [last] else [])
  }

  /** The swaps that apply to the content of the file at `p`. */
  function ContentSwaps(swaps: seq<Swap>, p: string, isMatch: RegexMatcher): (r: seq<Swap>)
    decreases |swaps|
  {
    if swaps == [] then []
    else
      var init := swaps[..|swaps| - 1];
      var last := swaps[|swaps| - 1];
      assert swaps == init + [last];
      ContentSwaps(init, p, isMatch) + (if MatchContent(last, p, isMatch) then [last] else [])
  }

  /** One swap applied to a text: every occurrence of its key becomes its
      value; a swap without a value changes nothing. */
  function ApplySwap(s: string, w: Swap): string {
    if w.val.Some? then Replace(s, w.key, w.val.value) else s
  }

  /** The swaps applied in order, each to the previous one's output. */
  function Chain(s: string, swaps: seq<Swap>): string
    decreases |swaps|
  {
    if swaps == [] then s
    else ApplySwap(Chain(s, swaps[..|swaps| - 1]), swaps[|swaps| - 1])
  }

  /** The occurrences each swap with a value rewrites, counted in the text
      just before that swap, summed. */
  function ChainCount(s: string, swaps: seq<Swap>): nat
    decreases |swaps|
  {
    if swaps == [] then 0
    else
      var init := swaps[..|swaps| - 1];
      var last := swaps[|swaps| - 1];
      ChainCount(s, init) + (if last.val.Some? then CountMatches(Chain(s, init), last.key) else 0)
  }

  /** The path swaps are exactly the swaps that match the path. */
  lemma {:induction false} PathSwapsMembers(swaps: seq<Swap>, p: string, isMatch: RegexMatcher)
    ensures forall w :: w in PathSwaps(swaps, p, isMatch) <==> w in swaps && MatchPath(w, p, isMatch)
    decreases |swaps|
  {
    if swaps != [] {
      var init := swaps[..|swaps| - 1];
      PathSwapsMembers(init, p, isMatch);
      assert swaps == init + [swaps[|swaps| - 1]];
    }
  }

  /** The content swaps are exactly the swaps that match the path. */
  lemma {:induction false} ContentSwapsMembers(swaps: seq<Swap>, p: string, isMatch: RegexMatcher)
    ensures forall w :: w in ContentSwaps(swaps, p, isMatch) <==> w in swaps && MatchContent(w, p, isMatch)
    decreases |swaps|
  {
    if swaps != [] {
      var init := swaps[..|swaps| - 1];
      ContentSwapsMembers(init, p, isMatch);
      assert swaps == init + [swaps[|swaps| - 1]];
    }
  }

  lemma PathSwapsSnoc(swaps: seq<Swap>, w: Swap, p: string, isMatch: RegexMatcher)
    ensures PathSwaps(swaps + [w], p, isMatch) ==
      PathSwaps(swaps, p, isMatch) + (if MatchPath(w, p, isMatch) then [w] else [])
  {
    assert (swaps + [w])[..|swaps|] == swaps;
  }

  lemma ChainSnoc(s: string, swaps: seq<Swap>, w: Swap)
    ensures Chain(s, swaps + [w]) == ApplySwap(Chain(s, swaps), w)
    ensures ChainCount(s, swaps + [w]) ==
      ChainCount(s, swaps) + (if w.val.Some? then CountMatches(Chain(s, swaps), w.key) else 0)
  {
    assert (swaps + [w])[..|swaps|] == swaps;
  }

  datatype SwapOp = Copied | Rendered(count: nat)

  datatype CopyResult = CopyResult(dest: string, op: SwapOp)

  datatype Swapper = Swapper(swaps: seq<Swap>)
  {
    /** What `path` makes of `p`. */
    function Swapped(p: string, isMatch: RegexMatcher): string {
      Chain(p, PathSwaps(swaps, p, isMatch))
    }

    /** `path`: rewrite a path with the swaps that apply to it. */
    method PathOf(p: string, isMatch: RegexMatcher) returns (r: string)
      ensures r == Swapped(p, isMatch)
      ensures PathSwaps(swaps, p, isMatch) == [] ==> r == p
    {
      r := p;
      var i := 0;
      while i < |swaps|
        invariant 0 <= i <= |swaps|
        invariant r == Chain(p, PathSwaps(swaps[..i], p, isMatch))
      {
        var w := swaps[i];
        var before := PathSwaps(swaps[..i], p, isMatch);
        assert swaps[..i + 1] == swaps[..i] + [w];
        PathSwapsSnoc(swaps[..i], w, p, isMatch);
        if MatchPath(w, p, isMatch) {
          ChainSnoc(p, before, w);
          if w.val.Some? {
            r := Replace(r, w.key, w.val.value);
          }
        } else {
          assert before + [] == before;
        }
        i := i + 1;
      }
      assert swaps[..|swaps|] == swaps;
    }

    /** `exists`: the rewritten path names an existing file. */
    predicate ExistsIn(fs: FileSystem, dest: string, isMatch: RegexMatcher): (r: bool)
      reads fs
      ensures r <==> Swapped(dest, isMatch) in fs.files
    {
      fs.Exists(Swapped(dest, isMatch))
    }
  }

  /** `render_content`: apply the content swaps in order, counting the
      occurrences they rewrite. */
  method RenderContent(contentSwaps: seq<Swap>, original: string) returns (out: string, count: nat)
    ensures out == Chain(original, contentSwaps) && count == ChainCount(original, contentSwaps)
    ensures contentSwaps == [] ==> out == original && count == 0
  {
    out := original;
    count := 0;
    var i := 0;
    while i < |contentSwaps|
      invariant 0 <= i <= |contentSwaps|
      invariant out == Chain(original, contentSwaps[..i])
      invariant count == ChainCount(original, contentSwaps[..i])
    {
      var w := contentSwaps[i];
      assert contentSwaps[..i + 1] == contentSwaps[..i] + [w];
      ChainSnoc(original, contentSwaps[..i], w);
      if w.val.Some? {
        count := count + CountMatches(out, w.key);
        out := Replace(out, w.key, w.val.value);
      }
      i := i + 1;
    }
    assert contentSwaps[..|contentSwaps|] == contentSwaps;
  }

  /** Nothing rewritten means nothing changed. */
  lemma {:induction false} ChainCountZero(s: string, swaps: seq<Swap>)
    requires ChainCount(s, swaps) == 0
    ensures Chain(s, swaps) == s
    decreases |swaps|
  {
    if swaps != [] {
      var init := swaps[..|swaps| - 1];
      var last := swaps[|swaps| - 1];
      ChainCountZero(s, init);
      if last.val.Some? {
        ReplaceNoMatch(Chain(s, init), last.key, last.val.value);
      }
    }
  }

  /** Swaps whose values equal their keys change nothing. */
  lemma {:induction false} ChainSelf(s: string, swaps: seq<Swap>)
    requires forall i :: 0 <= i < |swaps| ==> swaps[i].val.None? || swaps[i].val == Some(swaps[i].key)
    ensures Chain(s, swaps) == s
    decreases |swaps|
  {
    if swaps != [] {
      var init := swaps[..|swaps| - 1];
      var last := swaps[|swaps| - 1];
      ChainSelf(s, init);
      if last.val.Some? {
        ReplaceSelf(s, last.key);
      }
    }
  }

  /** The rewritten length: each rewritten occurrence changes it by the
      difference between its value's and its key's lengths; so swaps whose
      values are as long as their keys keep the length. */
  lemma {:induction false} ChainSameLength(s: string, swaps: seq<Swap>)
    requires forall i :: 0 <= i < |swaps| ==> swaps[i].val.None? || |swaps[i].val.value| == |swaps[i].key|
    ensures |Chain(s, swaps)| == |s|
    decreases |swaps|
  {
    if swaps != [] {
      var init := swaps[..|swaps| - 1];
      var last := swaps[|swaps| - 1];
      ChainSameLength(s, init);
      if last.val.Some? {
        var t := Chain(s, init);
        ReplaceLength(t, last.key, last.val.value);
        var c := CountMatches(t, last.key);
        assert |last.val.value| - |last.key| == 0;
        assert c * (|last.val.value| - |last.key|) == 0;
      }
    }
  }

  /** A content swap never touches a path. */
  lemma {:induction false} ContentSwapsLeavePaths(p: string, content: seq<Swap>, isMatch: RegexMatcher)
    requires forall i :: 0 <= i < |content| ==> content[i].kind == Content
    ensures PathSwaps(content, p, isMatch) == []
    ensures Swapper(content).Swapped(p, isMatch) == p
    decreases |content|
  {
    if content != [] {
      ContentSwapsLeavePaths(p, content[..|content| - 1], isMatch);
    }
  }

  /** The swap of the path examples: `$SWAPME$` set to `hello-world`. */
  function SwapMe(): Swap {
    Swap("$SWAPME$", None, Some("hello-world"), None, All)
  }

  /** A path holding the key between two plain parts gets the value in its
      place, as `some/$SWAPME$/path` becomes `some/hello-world/path`. */
  lemma SwapPathExample(a: string, b: string, isMatch: RegexMatcher)
    requires '$' !in a && '$' !in b
    ensures Swapper([SwapMe()]).Swapped(a + "$SWAPME$" + b, isMatch) == a + "hello-world" + b
  {
    var w := SwapMe();
    var k := w.key;
    var v := w.val.value;
    var p := a + k + b;
    assert PathSwaps([w], p, isMatch) == [w] by {
      assert [w] == [] + [w];
      PathSwapsSnoc([], w, p, isMatch);
    }
    assert Chain(p, [w]) == Replace(p, k, v) by {
      assert [w] == [] + [w];
      ChainSnoc(p, [], w);
    }
    assert k[0] == '$';
    ReplaceBetween(a, k, b, v);
  }

  /** A path without the key is kept, as `some/naive/path` is. */
  lemma KeptPathExample(p: string, isMatch: RegexMatcher)
    requires '$' !in p
    ensures Swapper([SwapMe()]).Swapped(p, isMatch) == p
  {
    var w := SwapMe();
    var k := w.key;
    assert PathSwaps([w], p, isMatch) == [w] by {
      assert [w] == [] + [w];
      PathSwapsSnoc([], w, p, isMatch);
    }
    assert Chain(p, [w]) == Replace(p, k, w.val.value) by {
      assert [w] == [] + [w];
      ChainSnoc(p, [], w);
    }
    ReplaceAfterPlain(p, [], k, w.val.value);
    assert p + [] == p;
  }

  /** `materialize_val_template`: every swap gets a value, its own `val`
      first, else its template rendered against the variables; the first
      swap with neither, or whose template fails, is the error. */
  function Materialize(swaps: seq<Swap>, vars: Entries<string>, render: Renderer): (r: Result<seq<Swap>>)
    decreases |swaps|
    ensures r.Ok? ==> |r.value| == |swaps|
    ensures r.Ok? ==> forall i :: 0 <= i < |swaps| ==>
      r.value[i].val.Some? && r.value[i] == swaps[i].(val := r.value[i].val) &&
      (swaps[i].val.Some? ==> r.value[i].val == swaps[i].val) &&
      (swaps[i].val.None? ==>
         swaps[i].valTemplate.Some? && render(swaps[i].valTemplate.value, vars) == Ok(r.value[i].val.value))
    ensures r.Err? <==> exists i :: 0 <= i < |swaps| && MaterializeOne(swaps[i], vars, render).Err?
    ensures r.Err? ==>
      exists i :: 0 <= i < |swaps| && MaterializeOne(swaps[i], vars, render) == Err(r.msg) &&
        forall j :: 0 <= j < i ==> MaterializeOne(swaps[j], vars, render).Ok?
  {
    if swaps == [] then Ok([])
    else
      var first :- MaterializeOne(swaps[0], vars, render);
      var rest :- Materialize(swaps[1..], vars, render);
      assert forall i :: 1 <= i < |swaps| ==> swaps[i] == swaps[1..][i - 1];
      Ok([first] + rest)
  }

  /** One swap with its value filled in. */
  function MaterializeOne(swap: Swap, vars: Entries<string>, render: Renderer): (r: Result<Swap>)
    ensures r.Ok? ==> r.value == swap.(val := r.value.val) && r.value.val.Some?
    ensures swap.val.Some? ==> r == Ok(swap)
    ensures swap.val.None? && swap.valTemplate.Some? && render(swap.valTemplate.value, vars).Ok? ==>
      r == Ok(swap.(val := Some(render(swap.valTemplate.value, vars).value)))
    ensures r.Err? <==> swap.val.None? && (swap.valTemplate.None? || render(swap.valTemplate.value, vars).Err?)
    ensures r.Err? && swap.valTemplate.None? ==> r.msg == NEITHER_VAL
    ensures r.Err? && swap.valTemplate.Some? ==> r == Err(render(swap.valTemplate.value, vars).msg)
  {
    match (swap.val, swap.valTemplate)
    case (Some(v), _) => Ok(swap.(val := Some(v)))
    case (None, Some(t)) =>
      var v :- render(t, vars);
      Ok(swap.(val := Some(v)))
    case (None, None) => Err(NEITHER_VAL)
  }

  /** `with_vars`: a swapper with every value filled in; no swaps at all
      give an empty swapper. */
  function WithVars(swaps: Option<seq<Swap>>, vars: Entries<string>, render: Renderer): (r: Result<Swapper>)
    ensures swaps.None? ==> r == Ok(Swapper([]))
    ensures swaps.Some? ==> (r.Ok? <==> Materialize(swaps.value, vars, render).Ok?)
    ensures r.Ok? ==> forall w :: w in r.value.swaps ==> w.val.Some?
    ensures r.Ok? && swaps.Some? ==> |r.value.swaps| == |swaps.value|
    ensures r.Ok? && swaps.Some? ==> r.value.swaps == Materialize(swaps.value, vars, render).value
    ensures r.Err? ==> swaps.Some? && r.msg == Materialize(swaps.value, vars, render).msg
  {
    var materialized :- Materialize(swaps.GetOr([]), vars, render);
    Ok(Swapper(materialized))
  }

  /** The outcome of `copy_to` and the files afterwards. */
  datatype Copy = Copy(result: Result<CopyResult>, files: map<string, string>)

  /** `copy_to`: the file goes to the rewritten destination; the content
      swaps that apply to the source are applied to text content, while
      binary content, or content with no applicable swap, is copied as is. */
  function CopyToSpec(sw: Swapper, files: map<string, string>, source: string, dest: string,
                      isMatch: RegexMatcher, isText: TextDetector): (c: Copy)
    requires source in files
    ensures var swapped := sw.Swapped(dest, isMatch);
      var content := ContentSwaps(sw.swaps, source, isMatch);
      (c.result.Err? <==> Parent(swapped).None?) &&
      (c.result.Err? ==> c.files == files && c.result.msg == "cannot get parent for \"" + swapped + "\"") &&
      (c.result.Ok? ==>
        c.result.value.dest == swapped && swapped in c.files && c.files == files[swapped := c.files[swapped]]) &&
      (c.result.Ok? ==> (c.result.value.op.Rendered? <==> content != [] && isText(files[source]))) &&
      (c.result.Ok? && c.result.value.op.Copied? ==> c.files[swapped] == files[source]) &&
      (c.result.Ok? && c.result.value.op.Rendered? ==>
        c.files[swapped] == Chain(files[source], content) &&
        c.result.value.op.count == ChainCount(files[source], content))
  {
    var swapped := sw.Swapped(dest, isMatch);
    if Parent(swapped).None? then Copy(Err("cannot get parent for \"" + swapped + "\""), files)
    else
      var content := ContentSwaps(sw.swaps, source, isMatch);
      if content == [] then Copy(Ok(CopyResult(swapped, Copied)), files[swapped := files[source]])
      else if isText(files[source]) then
        var text := Chain(files[source], content);
        Copy(Ok(CopyResult(swapped, Rendered(ChainCount(files[source], content)))), files[swapped := text])
      else Copy(Ok(CopyResult(swapped, Copied)), files[swapped := files[source]])
  }

  /** A rendering that rewrote nothing leaves the copy identical to its
      source. */
  lemma RenderedZeroIsCopy(sw: Swapper, files: map<string, string>, source: string, dest: string,
                           isMatch: RegexMatcher, isText: TextDetector)
    requires source in files
    ensures var c := CopyToSpec(sw, files, source, dest, isMatch, isText);
      c.result.Ok? && c.result.value.op == Rendered(0) ==>
        c.files[c.result.value.dest] == files[source]
  {
    var c := CopyToSpec(sw, files, source, dest, isMatch, isText);
    if c.result.Ok? && c.result.value.op == Rendered(0) {
      ChainCountZero(files[source], ContentSwaps(sw.swaps, source, isMatch));
    }
  }

  /** `copy_to` on the disk. */
  method CopyTo(sw: Swapper, fs: FileSystem, source: string, dest: string,
                isMatch: RegexMatcher, isText: TextDetector) returns (r: Result<CopyResult>)
    requires source in fs.files
    modifies fs
    ensures Copy(r, fs.files) == CopyToSpec(sw, old(fs.files), source, dest, isMatch, isText)
  {
    var swapped := sw.PathOf(dest, isMatch);
    if Parent(swapped).None? {
      r := Err("cannot get parent for \"" + swapped + "\"");
      return;
    }
    var content := ContentSwaps(sw.swaps, source, isMatch);
    if content == [] {
      fs.Copy(source, swapped);
      r := Ok(CopyResult(swapped, Copied));
      return;
    }
    var original := fs.files[source];
    if isText(original) {
      var text, count := RenderContent(content, original);
      fs.Write(swapped, text);
      r := Ok(CopyResult(swapped, Rendered(count)));
      return;
    }
    fs.Copy(source, swapped);
    r := Ok(CopyResult(swapped, Copied));
  }
}
