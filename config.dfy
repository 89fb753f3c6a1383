/**
 The parsed configuration of one tagging run, and the loop of
 `parse_xml_config` that collects the `BM/folder` elements in document order.
 Reading the XML document itself is not part of this model: the loop is given
 the attribute map of each folder element.
 */
module Config {

  datatype FolderSpec = FolderSpec(name: string, revision: string)

  /** What `parse_xml_config` returns: tag name, tag base path, copy source, folders. */
  datatype TagConfig = TagConfig(rootTag: string, rootSvnPath: string, sourceUrl: string, folders: seq<FolderSpec>)

  /** `folder.attrib[key]` raised KeyError on the folder element at `element`. */
  datatype MissingAttribute = MissingAttribute(element: nat, key: string)

  datatype Result<T> = Ok(value: T) | Err(error: MissingAttribute)

  predicate HasFolderAttributes(attributes: map<string, string>)
  {
    "name" in attributes && "revision" in attributes
  }

  /** The folder loop of `parse_xml_config`: one (name, revision) pair per folder element, in document order;
      `name` is looked up before `revision`, so a missing `name` is the one reported. */
  method CollectFolders(elements: seq<map<string, string>>) returns (r: Result<seq<FolderSpec>>)
    ensures r.Ok? <==> forall k :: 0 <= k < |elements| ==> HasFolderAttributes(elements[k])
    ensures r.Ok? ==> |r.value| == |elements|
    ensures r.Ok? ==> forall k :: 0 <= k < |elements| ==>
                        r.value[k] == FolderSpec(elements[k]["name"], elements[k]["revision"])
    ensures r.Err? ==>
      var e := r.error.element;
      e < |elements| && !HasFolderAttributes(elements[e]) &&
      (forall k :: 0 <= k < e ==> HasFolderAttributes(elements[k])) &&
      r.error.key == (if "name" in elements[e] then "revision" else "name")
  {
    var folders: seq<FolderSpec> := [];
    var i := 0;
    while i < |elements|
      invariant i <= |elements|
      invariant forall k :: 0 <= k < i ==> HasFolderAttributes(elements[k])
      invariant |folders| == i
      invariant forall k :: 0 <= k < i ==> folders[k] == FolderSpec(elements[k]["name"], elements[k]["revision"])
    {
      var attributes := elements[i];
      if "name" !in attributes {
        return Err(MissingAttribute(i, "name"));
      }
      var name := attributes["name"];
      if "revision" !in attributes {
        return Err(MissingAttribute(i, "revision"));
      }
      var revision := attributes["revision"];
      folders := folders + [FolderSpec(name, revision)];
      i := i + 1;
    }
    r := Ok(folders);
  }
}
