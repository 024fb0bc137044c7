/** `findExistingAudioItem`: the file name of a path, and a depth-first
    search of the project's bin tree for a clip item with that name. */
module ProjectBin {
  import opened Wrappers
  import opened Text

  /** A project item: a clip (with the host's handle that identifies it), a
      bin of further items, or an item of another type. */
  datatype ProjectItem =
    | ClipItem(handle: nat, name: string)
    | BinItem(name: string, children: seq<ProjectItem>)
    | OtherItem(name: string)

  /** `filePath.split('\\').pop().split('/').pop()`. */
  function FileNameOf(path: string): (name: string)
    ensures '\\' !in name && '/' !in name
    ensures |name| <= |path| && name == path[|path| - |name|..]
    ensures |name| == |path| || path[|path| - |name| - 1] in {'\\', '/'}
  {
    LastSegment(path);
    LastField(LastField(path, '\\'), '/')
  }

  /** The last `/`-field of the last `\`-field is a suffix of the path free
      of both separators that is the whole path or follows one of them. */
  lemma LastSegment(path: string)
    ensures var name := LastField(LastField(path, '\\'), '/');
      '\\' !in name && '/' !in name &&
      |name| <= |path| && name == path[|path| - |name|..] &&
      (|name| == |path| || path[|path| - |name| - 1] in {'\\', '/'})
  {
    var outer := LastField(path, '\\');
    var name := LastField(outer, '/');
    LastFieldFacts(path, '\\');
    LastFieldFacts(outer, '/');
    var off := |outer| - |name|;
    var base := |path| - |outer|;
    assert name == outer[off..] && outer == path[base..];
    assert name == path[base + off..];
    forall i | 0 <= i < |name|
      ensures name[i] != '\\'
    {
      assert name[i] == outer[off + i];
    }
    if |name| < |outer| {
      assert path[|path| - |name| - 1] == outer[off - 1];
    }
  }

  /** The search matches a clip item with exactly the wanted name. */
  predicate IsMatch(item: ProjectItem, fileName: string)
  {
    item.ClipItem? && item.name == fileName
  }

  /** `searchInBin` over a bin's children: each child in order, descending
      into a bin before moving to the next sibling. */
  function SearchInBin(items: seq<ProjectItem>, fileName: string): (r: Option<ProjectItem>)
    ensures r.Some? ==> IsMatch(r.value, fileName)
    decreases items
  {
    if items == [] then None
    else
      var item := items[0];
      if IsMatch(item, fileName) then Some(item)
      else if item.BinItem? then
        var found := SearchInBin(item.children, fileName);
        if found.Some? then found else SearchInBin(items[1..], fileName)
      else SearchInBin(items[1..], fileName)
  }

  /** `findExistingAudioItem`: search from the project's root bin. */
  function FindExistingAudioItem(rootChildren: seq<ProjectItem>, filePath: string): (r: Option<ProjectItem>)
    ensures r.Some? ==> r.value.ClipItem? && r.value.name == FileNameOf(filePath)
  {
    SearchInBin(rootChildren, FileNameOf(filePath))
  }

  /** The items in depth-first pre-order: each item, then the contents of a
      bin, then its later siblings. */
  function PreOrder(items: seq<ProjectItem>): seq<ProjectItem>
    decreases items
  {
    if items == [] then []
    else
      var item := items[0];
      [item] + (if item.BinItem? then PreOrder(item.children) else []) + PreOrder(items[1..])
  }

  /** The first matching item of a listing, found by a plain linear scan. */
  function FirstMatch(list: seq<ProjectItem>, fileName: string): Option<ProjectItem>
  {
    if list == [] then None
    else if IsMatch(list[0], fileName) then Some(list[0])
    else FirstMatch(list[1..], fileName)
  }

  /** The linear scan finds a matching item with no match before it, and
      finds nothing exactly when nothing matches. */
  lemma {:induction false} FirstMatchIsFirst(list: seq<ProjectItem>, fileName: string)
    ensures var r := FirstMatch(list, fileName);
      (r.None? <==> forall k :: 0 <= k < |list| ==> !IsMatch(list[k], fileName)) &&
      (r.Some? ==> (exists k :: 0 <= k < |list| && list[k] == r.value && IsMatch(list[k], fileName) &&
                      forall j :: 0 <= j < k ==> !IsMatch(list[j], fileName)))
  {
    if list != [] && !IsMatch(list[0], fileName) {
      FirstMatchIsFirst(list[1..], fileName);
      var r := FirstMatch(list, fileName);
      if r.Some? {
        var k :| 0 <= k < |list[1..]| && list[1..][k] == r.value && IsMatch(list[1..][k], fileName) &&
          forall j :: 0 <= j < k ==> !IsMatch(list[1..][j], fileName);
        assert list[k + 1] == r.value;
        assert forall j :: 0 <= j < k + 1 ==> !IsMatch(list[j], fileName) by {
          forall j | 0 <= j < k + 1 ensures !IsMatch(list[j], fileName) {
            if j > 0 { assert list[j] == list[1..][j - 1]; }
          }
        }
      } else {
        assert forall k :: 1 <= k < |list| ==> list[k] == list[1..][k - 1];
      }
    }
  }

  lemma {:induction false} FirstMatchConcat(a: seq<ProjectItem>, b: seq<ProjectItem>, fileName: string)
    ensures FirstMatch(a + b, fileName) ==
      if FirstMatch(a, fileName).Some? then FirstMatch(a, fileName) else FirstMatch(b, fileName)
  {
    if a == [] {
      assert a + b == b;
    } else {
      FirstMatchConcat(a[1..], b, fileName);
      assert (a + b)[0] == a[0] && (a + b)[1..] == a[1..] + b;
    }
  }

  /** Scanning a listing that starts with `item` checks `item` first. */
  lemma FirstMatchCons(item: ProjectItem, list: seq<ProjectItem>, fileName: string)
    ensures FirstMatch([item] + list, fileName) ==
      if IsMatch(item, fileName) then Some(item) else FirstMatch(list, fileName)
  {
    assert ([item] + list)[0] == item && ([item] + list)[1..] == list;
  }

  /** The pre-order listing of items that start with a bin. */
  lemma PreOrderAtBin(items: seq<ProjectItem>)
    requires items != [] && items[0].BinItem?
    ensures PreOrder(items) == [items[0]] + (PreOrder(items[0].children) + PreOrder(items[1..]))
  {
  }

  /** The search of items that start with a bin: the bin itself, then its
      contents, then the later siblings. */
  lemma SearchAtBin(items: seq<ProjectItem>, fileName: string)
    requires items != [] && items[0].BinItem?
    ensures SearchInBin(items, fileName) ==
      if IsMatch(items[0], fileName) then Some(items[0])
      else if SearchInBin(items[0].children, fileName).Some? then SearchInBin(items[0].children, fileName)
      else SearchInBin(items[1..], fileName)
  {
  }

  /** The search step at a bin, given the claim for its contents and for
      its later siblings. */
  lemma SearchBinStep(items: seq<ProjectItem>, fileName: string)
    requires items != [] && items[0].BinItem?
    requires SearchInBin(items[0].children, fileName) == FirstMatch(PreOrder(items[0].children), fileName)
    requires SearchInBin(items[1..], fileName) == FirstMatch(PreOrder(items[1..]), fileName)
    ensures SearchInBin(items, fileName) == FirstMatch(PreOrder(items), fileName)
  {
    var inner := PreOrder(items[0].children);
    var rest := PreOrder(items[1..]);
    SearchAtBin(items, fileName);
    PreOrderAtBin(items);
    FirstMatchCons(items[0], inner + rest, fileName);
    FirstMatchConcat(inner, rest, fileName);
  }

  /** The search step at an item that is not a bin, given the claim for its
      later siblings. */
  lemma SearchLeafStep(items: seq<ProjectItem>, fileName: string)
    requires items != [] && !items[0].BinItem?
    requires SearchInBin(items[1..], fileName) == FirstMatch(PreOrder(items[1..]), fileName)
    ensures SearchInBin(items, fileName) == FirstMatch(PreOrder(items), fileName)
  {
    assert PreOrder(items) == [items[0]] + PreOrder(items[1..]);
    FirstMatchCons(items[0], PreOrder(items[1..]), fileName);
  }

  /** The bin search returns the first clip with the wanted name in
      depth-first pre-order. */
  lemma {:induction false} SearchIsFirstInPreOrder(items: seq<ProjectItem>, fileName: string)
    ensures SearchInBin(items, fileName) == FirstMatch(PreOrder(items), fileName)
    decreases items
  {
    if items != [] {
      SearchIsFirstInPreOrder(items[1..], fileName);
      if items[0].BinItem? {
        SearchIsFirstInPreOrder(items[0].children, fileName);
        SearchBinStep(items, fileName);
      } else {
        SearchLeafStep(items, fileName);
      }
    }
  }

  /** What `findExistingAudioItem` returns is a clip named as the path's
      last segment, the first such in pre-order, and it finds nothing only
      when the tree holds no such clip. */
  lemma FindExistingIsFirstClip(rootChildren: seq<ProjectItem>, filePath: string)
    ensures var r := FindExistingAudioItem(rootChildren, filePath);
      var list := PreOrder(rootChildren);
      var fileName := FileNameOf(filePath);
      (r.None? <==> forall k :: 0 <= k < |list| ==> !IsMatch(list[k], fileName)) &&
      (r.Some? ==> (r.value.ClipItem? && r.value.name == fileName &&
                    exists k :: 0 <= k < |list| && list[k] == r.value &&
                      forall j :: 0 <= j < k ==> !IsMatch(list[j], fileName)))
  {
    SearchIsFirstInPreOrder(rootChildren, FileNameOf(filePath));
    FirstMatchIsFirst(PreOrder(rootChildren), FileNameOf(filePath));
  }
}
