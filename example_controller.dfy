// example/Controller.cpp: the recent-files list of the example application.
// The settings store is the field `recentOpenFiles`; each entry is the text
// `path:title`.

module Controllers {
  import opened QStr
  import opened Optional

  const Colon: CodeUnit := 0x3A

  /** RecentFile: what the list view shows for one entry. */
  datatype RecentFile = RecentFile(path: QString, title: QString)

  /** The text stored for a file: `path:title`. */
  function EntryText(path: QString, title: QString): QString
  {
    path + [Colon] + title
  }

  /** The path part of a stored entry: its text before the first ':'. */
  function Key(entry: QString): QString
  {
    Split(entry, Colon)[0]
  }

  /**
   * How recentOpenFiles() reads one entry: split on ':' (always at least one
   * part), the path is part 0 and the title part 1 when there is one; an
   * entry with an empty path is skipped.
   */
  function ReadEntry(entry: QString): (r: Option<RecentFile>)
    ensures r.Some? ==> r.value.path != [] && r.value.path == Key(entry) && Colon !in r.value.path
  {
    var parts := Split(entry, Colon);
    var path := parts[0];
    var title := if |parts| == 1 then [] else parts[1];
    if path == [] then None else Some(RecentFile(path, title))
  }

  /** The list recentOpenFiles() builds from the stored entries, in order. */
  function RecentFiles(files: seq<QString>): (r: seq<RecentFile>)
    ensures |r| <= |files|
  {
    if |files| == 0 then []
    else
      var rest := RecentFiles(files[..|files| - 1]);
      match ReadEntry(files[|files| - 1])
      case None => rest
      case Some(f) => rest + [f]
  }

  /** The index of the first entry whose path is `path`, or |files| when there is none. */
  function FirstWithKey(files: seq<QString>, path: QString): (r: nat)
    ensures r <= |files|
    ensures forall j :: 0 <= j < r ==> Key(files[j]) != path
    ensures r < |files| ==> Key(files[r]) == path
  {
    if |files| == 0 then 0
    else if Key(files[0]) == path then 0
    else 1 + FirstWithKey(files[1..], path)
  }

  /** The entries with the first one whose path is `path` taken out. */
  function WithoutFirst(files: seq<QString>, path: QString): seq<QString>
  {
    var i := FirstWithKey(files, path);
    if i == |files| then files else files[..i] + files[i + 1..]
  }

  /** addRecentOpenFile on the stored list. */
  function AddRecent(files: seq<QString>, path: QString, title: QString): seq<QString>
  {
    WithoutFirst(files, path) + [EntryText(path, title)]
  }

  /** The part before the first separator of `path + [Colon] + rest` is `path` when `path` holds no separator. */
  lemma {:induction false} SplitAtColon(path: QString, rest: QString)
    requires Colon !in path
    ensures IndexOf(path + [Colon] + rest, Colon, 0) == |path|
    ensures Split(path + [Colon] + rest, Colon) == [path] + Split(rest, Colon)
  {
    var s := path + [Colon] + rest;
    var j := IndexOf(s, Colon, 0);
    assert s[|path|] == Colon;
    assert forall m :: 0 <= m < |path| ==> s[m] == path[m] && path[m] != Colon;
    assert s[..j] == path;
    assert s[j + 1..] == rest;
  }

  /**
   * Reading back an entry written by addRecentOpenFile gives the same path
   * and title, as long as neither contains ':' and the path is not empty.
   */
  lemma {:induction false} EntryRoundTrip(path: QString, title: QString)
    requires path != [] && Colon !in path && Colon !in title
    ensures Key(EntryText(path, title)) == path
    ensures ReadEntry(EntryText(path, title)) == Some(RecentFile(path, title))
  {
    SplitAtColon(path, title);
    assert IndexOf(title, Colon, 0) == |title| by {
      assert forall m :: 0 <= m < |title| ==> title[m] in title;
    }
  }

  /** A path with a ':' in it (a drive letter, say) does not survive the round trip: "C:/a" with title "t" reads back as path "C", title "/a". */
  lemma {:induction false} ColonInPathIsCut()
    ensures var path: QString := [0x43, Colon, 0x2F, 0x61];
      ReadEntry(EntryText(path, [0x74])) == Some(RecentFile([0x43], [0x2F, 0x61]))
      && Key(EntryText(path, [0x74])) != path
  {
    var path: QString := [0x43, Colon, 0x2F, 0x61];
    var title: QString := [0x74];
    assert EntryText(path, title) == [0x43] + [Colon] + ([0x2F, 0x61] + [Colon] + title);
    SplitAtColon([0x43], [0x2F, 0x61] + [Colon] + title);
    SplitAtColon([0x2F, 0x61], title);
  }

  /**
   * After addRecentOpenFile the new entry is last, and the earlier entries
   * are the old ones, in their old order, less the first one with this path.
   */
  lemma {:induction false} AddRecentShape(files: seq<QString>, path: QString, title: QString)
    ensures var r := AddRecent(files, path, title);
      r[|r| - 1] == EntryText(path, title) && r[..|r| - 1] == WithoutFirst(files, path)
    ensures |AddRecent(files, path, title)| == if FirstWithKey(files, path) < |files| then |files| else |files| + 1
    ensures var i, w := FirstWithKey(files, path), WithoutFirst(files, path);
      (forall j :: 0 <= j < i && j < |w| ==> w[j] == files[j])
      && (forall j :: i <= j < |w| ==> w[j] == files[j + 1])
  {
    var i := FirstWithKey(files, path);
    var w := WithoutFirst(files, path);
    var r := AddRecent(files, path, title);
    assert r == w + [EntryText(path, title)];
    assert r[..|r| - 1] == w;
    if i < |files| {
      assert w == files[..i] + files[i + 1..];
      assert |w| == |files| - 1;
    } else {
      assert w == files;
    }
  }

  /**
   * When no two entries share a path, re-adding a file leaves exactly one
   * entry for it, the last one.
   */
  lemma {:induction false} AddRecentKeepsOneEntry(files: seq<QString>, path: QString, title: QString)
    requires path != [] && Colon !in path && Colon !in title
    requires forall a, b :: 0 <= a < b < |files| && Key(files[a]) == path ==> Key(files[b]) != path
    ensures var r := AddRecent(files, path, title);
      Key(r[|r| - 1]) == path && forall j :: 0 <= j < |r| - 1 ==> Key(r[j]) != path
  {
    EntryRoundTrip(path, title);
    var i := FirstWithKey(files, path);
    var w := WithoutFirst(files, path);
    forall j | 0 <= j < |w|
      ensures Key(w[j]) != path
    {
      if i < |files| {
        if j >= i {
          assert w[j] == files[j + 1];
        }
      }
    }
  }

  /** The controller's view of the settings store. */
  class Controller {
    var recentOpenFiles: seq<QString>

    /** recentOpenFiles(): the entries read one by one, in order. */
    method RecentOpenFiles() returns (list: seq<RecentFile>)
      ensures list == RecentFiles(recentOpenFiles)
    {
      var files := recentOpenFiles;
      list := [];
      for i := 0 to |files|
        invariant list == RecentFiles(files[..i])
      {
        assert files[..i + 1][..i] == files[..i];
        var arr := Split(files[i], Colon);
        var path: QString;
        var title: QString := [];
        if |arr| == 1 {
          path := arr[0];
        } else {
          path := arr[0];
          title := arr[1];
        }
        if path == [] {
          continue;
        }
        list := list + [RecentFile(path, title)];
      }
      assert files[..|files|] == files;
    }

    /**
     * addRecentOpenFile: the first entry with the same path goes, then
     * `path:title` is appended.
     */
    method AddRecentOpenFile(path: QString, title: QString)
      modifies this
      ensures recentOpenFiles == AddRecent(old(recentOpenFiles), path, title)
    {
      var files := recentOpenFiles;
      var i := 0;
      while i < |files|
        invariant 0 <= i <= |files| && files == old(recentOpenFiles)
        invariant forall j :: 0 <= j < i ==> Key(files[j]) != path
      {
        var items := Split(files[i], Colon);
        var itemPath := items[0];
        if itemPath == path {
          files := files[..i] + files[i + 1..];
          break;
        }
        i := i + 1;
      }
      files := files + [EntryText(path, title)];
      recentOpenFiles := files;
    }

    /** clearRecentFiles: the stored list becomes empty. */
    method ClearRecentFiles()
      modifies this
      ensures recentOpenFiles == []
      ensures RecentFiles(recentOpenFiles) == []
    {
      recentOpenFiles := [];
    }
  }
}
