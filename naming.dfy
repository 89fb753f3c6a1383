/**
 The strings the tag-creation script builds: the repository URLs it hands to
 `svn`, the commit messages, and the short folder name it writes to the log.
 */
module Naming {
  import opened TextSplit

  /** The name a folder is logged under: the third piece of `name.split('_', 2)`
      when there are three pieces, the whole name otherwise. */
  function DisplayName(folderName: string): (r: string)
    ensures |r| <= |folderName|
  {
    var parts := Split(folderName, '_', 2);
    if |parts| == 3 then ThirdPieceIsSuffix(folderName); parts[2] else folderName
  }

  /** URL of the tag folder: `<root_svn_path>/<root_tag>`. */
  function TagUrl(rootSvnPath: string, rootTag: string): string
  {
    rootSvnPath + "/" + rootTag
  }

  /** URL a folder is copied to: `<root_svn_path>/<root_tag>/<folder_name>`,
      that is, the tag URL, a slash, then the folder name. */
  function DestinationUrl(rootSvnPath: string, rootTag: string, folderName: string): string
  {
    rootSvnPath + "/" + rootTag + "/" + folderName
  }

  /** The pegged copy source handed to `svn cp`: `<source_url>@<revision>`. */
  function SourceRef(sourceUrl: string, revision: string): string
  {
    sourceUrl + "@" + revision
  }

  /** Commit message of the `svn mkdir` that creates the tag. */
  function CreateMessage(tagUrl: string): (m: string)
    ensures |m| > |tagUrl| && m[|m| - |tagUrl|..] == tagUrl
  {
    "Creating BM-tag at " + tagUrl
  }

  /** Commit message of the `svn cp` of one folder. */
  function CopyMessage(folderName: string, revision: string, rootTag: string): string
  {
    "Copying BM \"" + folderName + "\" from revision \"" + revision + "\" to Tag \"" + rootTag + "\"."
  }

  /** One line of the log file, without its line terminator. */
  function LogEntry(displayName: string, destinationUrl: string): string
  {
    displayName + " : " + destinationUrl
  }

  /** When the split yields three pieces, the third starts at least two characters in. */
  lemma ThirdPiece(name: string) returns (k: nat)
    requires |Split(name, '_', 2)| == 3
    ensures 2 <= k <= |name| && Split(name, '_', 2)[2] == name[k..]
  {
    var i := Find(name, '_').value;
    var j := Find(name[i + 1..], '_').value;
    TwoCuts(name, '_', i, j);
    k := i + j + 2;
  }

  lemma ThirdPieceIsSuffix(name: string)
    requires |Split(name, '_', 2)| == 3
    ensures var p := Split(name, '_', 2)[2];
            |p| <= |name| && name[|name| - |p|..] == p
  {
    var k := ThirdPiece(name);
  }

  /** The display name is everything after the second underscore. */
  lemma DisplayNameAfterSecondUnderscore(name: string, i: nat, j: nat)
    requires i < j < |name| && name[i] == '_' && name[j] == '_'
    requires '_' !in name[..i] && '_' !in name[i + 1..j]
    ensures DisplayName(name) == name[j + 1..]
  {
    FindIsFirst(name, '_', i);
    var rest := name[i + 1..];
    assert rest[..j - i - 1] == name[i + 1..j];
    FindIsFirst(rest, '_', j - i - 1);
    TwoCuts(name, '_', i, j - i - 1);
  }

  /** The display name is always a suffix of the folder name. */
  lemma DisplayNameIsSuffix(name: string)
    ensures name[|name| - |DisplayName(name)|..] == DisplayName(name)
  {
    if |Split(name, '_', 2)| == 3 {
      ThirdPieceIsSuffix(name);
    }
  }

  /** The whole folder name is logged exactly when it holds fewer than two underscores,
      that is, when the split does not yield three pieces. */
  lemma DisplayNameIsWhole(name: string)
    ensures DisplayName(name) == name <==> Count(name, '_') < 2
    ensures DisplayName(name) == name <==> |Split(name, '_', 2)| != 3
  {
    SplitCount(name, '_', 2);
    if |Split(name, '_', 2)| == 3 {
      var k := ThirdPiece(name);
      assert |DisplayName(name)| < |name|;
    }
  }

  /** `A_B_C_D` gives `C_D`: the split stops after two cuts. */
  lemma DisplayNameStopsAfterTwoCuts()
    ensures DisplayName("A_B_C_D") == "C_D"
  {
    var name := "A_B_C_D";
    assert name[..1] == "A" && name[2..3] == "B";
    DisplayNameAfterSecondUnderscore(name, 1, 3);
    assert name[4..] == "C_D";
  }

  /** `A__B` gives `B`: the empty piece between two underscores counts. */
  lemma DisplayNameKeepsEmptyPiece()
    ensures DisplayName("A__B") == "B"
  {
    var name := "A__B";
    assert name[..1] == "A" && name[2..2] == "";
    DisplayNameAfterSecondUnderscore(name, 1, 2);
    assert name[3..] == "B";
  }

  /** `A_B` has a single underscore and is logged whole. */
  lemma DisplayNameOneUnderscore()
    ensures DisplayName("A_B") == "A_B"
  {
    var name := "A_B";
    assert name == ['A'] + ['_'] + ['B'];
    assert multiset(name)['_'] == 1;
    DisplayNameIsWhole(name);
  }

  /** `Motor_7k4W_Alpha` is logged as `Alpha`. */
  lemma DisplayNameThirdPieceExample()
    ensures DisplayName("Motor_7k4W_Alpha") == "Alpha"
  {
    var name := "Motor_7k4W_Alpha";
    assert name[..5] == "Motor" && name[6..10] == "7k4W";
    DisplayNameAfterSecondUnderscore(name, 5, 10);
    assert name[11..] == "Alpha";
  }

  /** With a single underscore the name is logged whole. */
  lemma DisplayNameSingleUnderscore(name: string, i: nat)
    requires i < |name| && name[i] == '_'
    requires '_' !in name[..i] && '_' !in name[i + 1..]
    ensures DisplayName(name) == name
  {
    FindIsFirst(name, '_', i);
    SplitAt(name, '_', 2, i);
  }

  /** `Inverter_22kW` has a single underscore and is logged whole. */
  lemma DisplayNameWholeExample()
    ensures DisplayName("Inverter_22kW") == "Inverter_22kW"
  {
    var name := "Inverter_22kW";
    assert name[..8] == "Inverter" && name[9..] == "22kW";
    DisplayNameSingleUnderscore(name, 8);
  }

  /** The tag URL is the base path, a slash, then the tag name. */
  lemma TagUrlParts(rootSvnPath: string, rootTag: string)
    ensures var t := TagUrl(rootSvnPath, rootTag);
            |t| == |rootSvnPath| + 1 + |rootTag| &&
            t[..|rootSvnPath|] == rootSvnPath && t[|rootSvnPath|] == '/' && t[|rootSvnPath| + 1..] == rootTag
  {
    var t := TagUrl(rootSvnPath, rootTag);
    assert t[|rootSvnPath| + 1..] == rootTag;
  }

  /** Every destination lies under the tag: the tag URL, a slash, then the folder name. */
  lemma DestinationUnderTag(rootSvnPath: string, rootTag: string, folderName: string)
    ensures DestinationUrl(rootSvnPath, rootTag, folderName) == TagUrl(rootSvnPath, rootTag) + "/" + folderName
    ensures var t := TagUrl(rootSvnPath, rootTag);
            DestinationUrl(rootSvnPath, rootTag, folderName)[..|t|] == t
  {
  }

  /** The folder name can be read back from its destination, so distinct folders
      of one tag get distinct destinations. */
  lemma DestinationNamesFolder(rootSvnPath: string, rootTag: string, f: string, g: string)
    ensures DestinationUrl(rootSvnPath, rootTag, f)[|TagUrl(rootSvnPath, rootTag)| + 1..] == f
    ensures DestinationUrl(rootSvnPath, rootTag, f) == DestinationUrl(rootSvnPath, rootTag, g) <==> f == g
  {
    var n := |TagUrl(rootSvnPath, rootTag)| + 1;
    assert DestinationUrl(rootSvnPath, rootTag, f)[n..] == f;
    assert DestinationUrl(rootSvnPath, rootTag, g)[n..] == g;
  }

  /** The copy source is the source URL, an `@`, then the revision. */
  lemma SourceRefParts(sourceUrl: string, revision: string)
    ensures var r := SourceRef(sourceUrl, revision);
            r[..|sourceUrl|] == sourceUrl && r[|sourceUrl|] == '@' && r[|sourceUrl| + 1..] == revision
  {
    var r := SourceRef(sourceUrl, revision);
    assert r[|sourceUrl| + 1..] == revision;
  }

  /** The copy's commit message opens with the folder name in quotes and closes
      with the tag name in quotes. */
  lemma CopyMessageNames(folderName: string, revision: string, rootTag: string)
    ensures var m := CopyMessage(folderName, revision, rootTag);
            var head := "Copying BM \"" + folderName + "\"";
            var tail := "to Tag \"" + rootTag + "\".";
            |m| >= |head| + |tail| && m[..|head|] == head && m[|m| - |tail|..] == tail
  {
    var head := "Copying BM \"" + folderName + "\"";
    var middle := " from revision \"" + revision + "\" ";
    var tail := "to Tag \"" + rootTag + "\".";
    var m := CopyMessage(folderName, revision, rootTag);
    assert m == head + middle + tail;
  }

  /** A log entry is the display name, ` : `, then the destination. */
  lemma LogEntryParts(displayName: string, destinationUrl: string)
    ensures var r := LogEntry(displayName, destinationUrl);
            |r| == |displayName| + 3 + |destinationUrl| &&
            r[..|displayName|] == displayName && r[|displayName|..|displayName| + 3] == " : " &&
            r[|displayName| + 3..] == destinationUrl
  {
    var r := LogEntry(displayName, destinationUrl);
    assert r[|displayName| + 3..] == destinationUrl;
  }

  /** With one source URL for every folder, copies of different revisions have
      different sources. */
  lemma SourceRefNamesRevision(sourceUrl: string, r1: string, r2: string)
    ensures SourceRef(sourceUrl, r1) == SourceRef(sourceUrl, r2) <==> r1 == r2
  {
    var a, b := SourceRef(sourceUrl, r1), SourceRef(sourceUrl, r2);
    assert a[|sourceUrl| + 1..] == r1 && b[|sourceUrl| + 1..] == r2;
  }
}
