/** Listing a folder: after the envelope test, the `item` elements under the container's
    `children` become repository items, classified as folder and/or report (`.fex`), and
    are sorted folders first, then by name. */
module Listing {
  import opened Common
  import opened Text
  import opened Xml
  import opened Envelope

  datatype RepositoryItem = RepositoryItem(
    name: string,
    objType: Option<string>,
    path: string,
    isFolder: bool,
    isFex: bool)

  /** The container: the first `ibfsobject`, or, when there is none, the first `rootObject`. */
  function Container(root: Element): (r: Option<Element>)
    ensures r.Some? ==> r.value.tag == "ibfsobject" || r.value.tag == "rootObject"
    ensures DocSelectFirst(root, "ibfsobject").Some? ==> r == DocSelectFirst(root, "ibfsobject")
    ensures r.Some? && r.value.tag == "rootObject" ==> DocSelectFirst(root, "ibfsobject").None?
    ensures DocSelectFirst(root, "ibfsobject").None? ==> r == DocSelectFirst(root, "rootObject")
    ensures r.None? <==> DocSelectFirst(root, "ibfsobject").None? && DocSelectFirst(root, "rootObject").None?
  {
    SelectFirstIsFirstOfAll(root, "ibfsobject");
    SelectFirstIsFirstOfAll(root, "rootObject");
    match DocSelectFirst(root, "ibfsobject")
    case Some(c) => Some(c)
    case None => DocSelectFirst(root, "rootObject")
  }

  /** The `item` elements anywhere under the container's first `children` element; none when
      either is missing. */
  function ItemElements(root: Element): (r: seq<Element>)
    ensures forall x :: x in r ==> x.tag == "item"
    ensures Container(root).None? ==> r == []
    ensures Container(root).Some? && SelectFirst(Container(root).value, "children").None? ==> r == []
    ensures Container(root).Some? && SelectFirst(Container(root).value, "children").Some? ==>
              r == SelectAll(SelectFirst(Container(root).value, "children").value, "item")
  {
    match Container(root)
    case None => []
    case Some(c) =>
      match SelectFirst(c, "children")
      case None => []
      case Some(ch) => SelectAll(ch, "item")
  }

  /** The item's type: the text of its first `objtype` descendant when that is non-empty,
      otherwise its `type` attribute. */
  function ObjType(item: Element): (r: Option<string>)
    ensures SelectFirst(item, "objtype").None? ==> r == Attr(item, "type")
    ensures SelectFirst(item, "objtype").Some? && TextContent(SelectFirst(item, "objtype").value) != "" ==>
              r == Some(TextContent(SelectFirst(item, "objtype").value))
    ensures SelectFirst(item, "objtype").Some? && TextContent(SelectFirst(item, "objtype").value) == "" ==>
              r == Attr(item, "type")
  {
    var text := match SelectFirst(item, "objtype") case Some(o) => Some(TextContent(o)) case None => None;
    if Truthy(text) then text else Attr(item, "type")
  }

  /** One repository item, built from its element and the listed folder's path. */
  function ItemOf(parentPath: string, item: Element): (r: RepositoryItem)
    ensures r.name == OrElse(Attr(item, "name"), "")
    ensures r.objType == ObjType(item)
    ensures Truthy(Attr(item, "fullPath")) ==> r.path == Attr(item, "fullPath").value
    ensures !Truthy(Attr(item, "fullPath")) ==> r.path == parentPath + "/" + r.name
    ensures r.isFolder <==>
              r.objType.Some? && (Lower(r.objType.value) == "folder" || Lower(r.objType.value) == "mrfolder")
    ensures r.isFex <==>
              (r.objType.Some? && Lower(r.objType.value) == "fexfile") || EndsWith(Lower(r.name), ".fex")
    ensures r.isFolder && r.isFex ==> EndsWith(Lower(r.name), ".fex")
  {
    var name := OrElse(Attr(item, "name"), "");
    var objType := ObjType(item);
    var lower := Lower(if objType.Some? then objType.value else "");
    RepositoryItem(
      name,
      objType,
      OrElse(Attr(item, "fullPath"), parentPath + "/" + name),
      lower == "folder" || lower == "mrfolder",
      lower == "fexfile" || EndsWith(Lower(name), ".fex"))
  }

  /** The loop of `getContents` that pushes one item per `item` element. */
  method CollectItems(parentPath: string, elements: seq<Element>) returns (items: seq<RepositoryItem>)
    ensures |items| == |elements|
    ensures forall i :: 0 <= i < |elements| ==> items[i] == ItemOf(parentPath, elements[i])
  {
    items := [];
    var i := 0;
    while i < |elements|
      invariant 0 <= i <= |elements|
      invariant |items| == i
      invariant forall k :: 0 <= k < i ==> items[k] == ItemOf(parentPath, elements[k])
    {
      items := items + [ItemOf(parentPath, elements[i])];
      i := i + 1;
    }
  }

  /** The order of the listing: every folder before every non-folder, and items of the same
      kind by name. */
  predicate ItemLe(a: RepositoryItem, b: RepositoryItem)
  {
    (a.isFolder && !b.isFolder) || (a.isFolder == b.isFolder && NameLe(a.name, b.name))
  }

  lemma ItemLeTotal(a: RepositoryItem, b: RepositoryItem)
    ensures ItemLe(a, b) || ItemLe(b, a)
  {
    NameLeTotal(a.name, b.name);
  }

  lemma ItemLeTransitive(a: RepositoryItem, b: RepositoryItem, c: RepositoryItem)
    requires ItemLe(a, b) && ItemLe(b, c)
    ensures ItemLe(a, c)
  {
    if a.isFolder == b.isFolder == c.isFolder {
      NameLeTransitive(a.name, b.name, c.name);
    }
  }

  predicate Sorted(s: seq<RepositoryItem>)
  {
    forall i, j :: 0 <= i < j < |s| ==> ItemLe(s[i], s[j])
  }

  /** Puts `x` in front of the first item it may precede. */
  function Insert(x: RepositoryItem, s: seq<RepositoryItem>): (r: seq<RepositoryItem>)
    ensures multiset(r) == multiset(s) + multiset{x}
    ensures Sorted(s) ==> Sorted(r)
  {
    if s == [] then [x]
    else if ItemLe(x, s[0]) then
      assert Sorted(s) ==> Sorted([x] + s) by {
        if Sorted(s) {
          forall k | 0 <= k < |s| ensures ItemLe(x, s[k]) {
            if k > 0 { ItemLeTransitive(x, s[0], s[k]); }
          }
          forall i, j | 0 <= i < j < |s| + 1 ensures ItemLe(([x] + s)[i], ([x] + s)[j]) {
            assert ([x] + s)[j] == s[j - 1];
          }
        }
      }
      [x] + s
    else
      var rest := Insert(x, s[1..]);
      assert s == [s[0]] + s[1..];
      assert Sorted(s) ==> Sorted([s[0]] + rest) by {
        if Sorted(s) {
          ItemLeTotal(x, s[0]);
          forall y | y in rest ensures ItemLe(s[0], y) {
            assert y in multiset(rest);
            if y != x {
              assert y in multiset(s[1..]);
              var k :| 0 <= k < |s[1..]| && s[1..][k] == y;
              assert s[k + 1] == y;
            }
          }
          forall i, j | 0 <= i < j < |rest| + 1 ensures ItemLe(([s[0]] + rest)[i], ([s[0]] + rest)[j]) {
            if i == 0 {
              assert rest[j - 1] in rest;
            }
          }
        }
      }
      [s[0]] + rest
  }

  /** The sort of `getContents`, as an insertion sort: the result is the input's items,
      folders first, each kind ordered by name. */
  function SortItems(items: seq<RepositoryItem>): (r: seq<RepositoryItem>)
    ensures multiset(r) == multiset(items)
    ensures Sorted(r)
  {
    if items == [] then []
    else
      assert items == [items[0]] + items[1..];
      Insert(items[0], SortItems(items[1..]))
  }

  /** In a sorted listing no non-folder comes before a folder, and items of one kind are in
      name order. */
  lemma FoldersFirst(items: seq<RepositoryItem>, i: nat, j: nat)
    requires i < j < |SortItems(items)|
    ensures SortItems(items)[j].isFolder ==> SortItems(items)[i].isFolder
    ensures SortItems(items)[i].isFolder == SortItems(items)[j].isFolder ==>
              NameLe(SortItems(items)[i].name, SortItems(items)[j].name)
  {
  }

  /** The items of a set of `item` elements. */
  function ItemsOf(parentPath: string, elements: seq<Element>): (r: seq<RepositoryItem>)
    ensures |r| == |elements|
    ensures forall i :: 0 <= i < |elements| ==> r[i] == ItemOf(parentPath, elements[i])
  {
    seq(|elements|, i requires 0 <= i < |elements| => ItemOf(parentPath, elements[i]))
  }

  /** `getContents` once the response is parsed: success exactly on a success code, with the
      listed items sorted; otherwise `returndesc` as it is. */
  method InterpretContents(path: string, root: Element) returns (r: Outcome<seq<RepositoryItem>>)
    ensures r.Success? <==> Succeeded(root)
    ensures r.Failure? ==> r.error == ReturnDesc(root)
    ensures r.Success? ==> r.value == SortItems(ItemsOf(path, ItemElements(root)))
    ensures r.Success? ==>
              Sorted(r.value) && multiset(r.value) == multiset(ItemsOf(path, ItemElements(root)))
    ensures r.Success? && Container(root).None? ==> r.value == []
  {
    if !IsSuccessCode(Attr(root, "returncode")) {
      return Failure(Attr(root, "returndesc"));
    }
    var elements: seq<Element> := [];
    var container := DocSelectFirst(root, "ibfsobject");
    if container.None? {
      container := DocSelectFirst(root, "rootObject");
    }
    if container.Some? {
      var children := SelectFirst(container.value, "children");
      if children.Some? {
        elements := SelectAll(children.value, "item");
      }
    }
    assert elements == ItemElements(root);
    var items := CollectItems(path, elements);
    assert items == ItemsOf(path, elements);
    r := Success(SortItems(items));
  }

  /** The order of the example listing: `b.fex`, the folder `A Folder` and `a.fex` are shown
      as `A Folder`, `a.fex`, `b.fex`. */
  lemma ExampleOrder()
    ensures var b := RepositoryItem("b.fex", None, "p/b.fex", false, true);
            var f := RepositoryItem("A Folder", Some("folder"), "p/A Folder", true, false);
            var a := RepositoryItem("a.fex", None, "p/a.fex", false, true);
            SortItems([b, f, a]) == [f, a, b]
  {
    var b := RepositoryItem("b.fex", None, "p/b.fex", false, true);
    var f := RepositoryItem("A Folder", Some("folder"), "p/A Folder", true, false);
    var a := RepositoryItem("a.fex", None, "p/a.fex", false, true);
    assert [b, f, a][1..] == [f, a];
    assert [f, a][1..] == [a];
    assert [a][1..] == [];
    assert SortItems([a]) == [a];
    assert ItemLe(f, a);
    assert SortItems([f, a]) == [f, a];
    assert !ItemLe(b, f);
    assert NameLe("a.fex", "b.fex");
    assert !ItemLe(b, a);
    assert Insert(b, [a]) == [a, b];
    assert Insert(b, [f, a]) == [f] + Insert(b, [a]);
  }
}
