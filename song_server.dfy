/**
 * The path logic of task3's song server (task3/server.c): which files of
 * the music directory are served, how their paths are built, which song
 * index a client may ask for, and the command-line defaults. Directory
 * reading is an input list of entry names, in `readdir` order; sockets and
 * file streaming are not modelled.
 */
module SongServer {
  import opened Wrappers
  import opened CommandLine

  /** `SONG_COUNT`: the number of songs served. */
  const SongCount: int := 3

  /** The extension of the files served. */
  const Mp3: string := ".mp3"

  /**
   * `does_contain_suffix`: `s` is at least as long as `x`, and its last
   * `|x|` characters are those of `x`, one by one.
   */
  predicate HasSuffix(s: string, x: string)
  {
    |s| >= |x| && s[|s| - |x|..] == x
  }

  /** `does_contain_suffix` compared character by character, as `strcmp` does past the start offset. */
  lemma HasSuffixChars(s: string, x: string)
    ensures HasSuffix(s, x) <==> |s| >= |x| && forall k :: 0 <= k < |x| ==> s[|s| - |x| + k] == x[k]
  {
    if |s| >= |x| && forall k :: 0 <= k < |x| ==> s[|s| - |x| + k] == x[k] {
      assert s[|s| - |x|..] == x;
    }
  }

  /** A suffix is what is left after some prefix. */
  lemma HasSuffixAppend(p: string, x: string)
    ensures HasSuffix(p + x, x)
  {
    assert (p + x)[|p|..] == x;
  }

  /** The empty suffix matches every string; a suffix longer than the string matches none. */
  lemma HasSuffixBounds(s: string, x: string)
    ensures |x| == 0 ==> HasSuffix(s, x)
    ensures |x| > |s| ==> !HasSuffix(s, x)
  {
    if |x| == 0 {
      assert s[|s|..] == x;
    }
  }

  /**
   * The path `get_song_paths_from_dir` builds for `name`: the directory,
   * a `/`, then the name.
   */
  function JoinPath(directory: string, name: string): (path: string)
    ensures |path| == |directory| + 1 + |name|
    ensures path[..|directory|] == directory && path[|directory|] == '/'
    ensures path[|directory| + 1..] == name
  {
    directory + "/" + name
  }

  /** A joined path ends with the name it was built from. */
  lemma JoinPathSuffix(directory: string, name: string)
    ensures HasSuffix(JoinPath(directory, name), name)
  {
    HasSuffixAppend(directory + "/", name);
  }

  /** The entries that are songs, in directory order. */
  function Songs(entries: seq<string>): (songs: seq<string>)
    ensures |songs| <= |entries|
    ensures forall k :: 0 <= k < |songs| ==> HasSuffix(songs[k], Mp3)
  {
    if |entries| == 0 then []
    else if HasSuffix(entries[0], Mp3) then [entries[0]] + Songs(entries[1..])
    else Songs(entries[1..])
  }

  /** The paths of `names`, each joined to `directory`. */
  function Paths(directory: string, names: seq<string>): (paths: seq<string>)
    ensures |paths| == |names|
    ensures forall k :: 0 <= k < |names| ==> paths[k] == JoinPath(directory, names[k])
  {
    seq(|names|, k requires 0 <= k < |names| => JoinPath(directory, names[k]))
  }

  /** Why the server exits while loading songs. */
  datatype LoadFailure =
    | DirectoryUnreadable     // `opendir` failed
    | TooFewSongs(found: int) // fewer than `SONG_COUNT` songs in the directory

  /**
   * `get_song_paths_from_dir`: walks the entries in order, joining each song
   * to the directory until `SONG_COUNT` are found; fewer than that, or a
   * directory that cannot be opened (`entries == None`), is the error exit.
   */
  method SongPaths(directory: string, entries: Option<seq<string>>) returns (r: Result<seq<string>, LoadFailure>)
    ensures entries.None? ==> r == Err(DirectoryUnreadable)
    ensures entries.Some? && |Songs(entries.value)| < SongCount ==> r == Err(TooFewSongs(|Songs(entries.value)|))
    ensures entries.Some? && |Songs(entries.value)| >= SongCount ==>
              r == Ok(Paths(directory, Songs(entries.value)[..SongCount]))
  {
    if entries.None? {
      return Err(DirectoryUnreadable);
    }
    var listing := entries.value;
    var paths: seq<string> := [];
    var idx := 0;
    var i := 0;
    while i < |listing| && idx < SongCount
      invariant 0 <= i <= |listing| && idx == |paths| <= SongCount
      invariant paths == Paths(directory, Songs(listing[..i]))
    {
      SongsStep(listing, i);
      if HasSuffix(listing[i], Mp3) {
        PathsSnoc(directory, Songs(listing[..i]), listing[i]);
        paths := paths + [JoinPath(directory, listing[i])];
        idx := idx + 1;
      }
      i := i + 1;
    }
    if idx != SongCount {
      assert listing[..i] == listing;
      return Err(TooFewSongs(idx));
    }
    SongsAppend(listing[..i], listing[i..]);
    assert listing[..i] + listing[i..] == listing;
    assert Songs(listing)[..SongCount] == Songs(listing[..i]);
    return Ok(paths);
  }

  /** Splitting the entries after one more of them. */
  lemma {:induction false} SongsStep(entries: seq<string>, i: int)
    requires 0 <= i < |entries|
    ensures Songs(entries[..i + 1]) == Songs(entries[..i]) + (if HasSuffix(entries[i], Mp3) then [entries[i]] else [])
  {
    SongsAppend(entries[..i], [entries[i]]);
    assert entries[..i] + [entries[i]] == entries[..i + 1];
  }

  /** Joining one more name adds its path at the end. */
  lemma PathsSnoc(directory: string, names: seq<string>, name: string)
    ensures Paths(directory, names + [name]) == Paths(directory, names) + [JoinPath(directory, name)]
  {
  }

  /** The songs of two listings in a row are the songs of each, in order. */
  lemma {:induction false} SongsAppend(xs: seq<string>, ys: seq<string>)
    ensures Songs(xs + ys) == Songs(xs) + Songs(ys)
  {
    if |xs| == 0 {
      assert xs + ys == ys;
    } else {
      assert (xs + ys)[0] == xs[0] && (xs + ys)[1..] == xs[1..] + ys;
      SongsAppend(xs[1..], ys);
    }
  }

  /** Every path served is inside the directory and names an `.mp3` file. */
  lemma ServedPathsAreSongs(directory: string, entries: seq<string>, k: int)
    requires |Songs(entries)| >= SongCount && 0 <= k < SongCount
    ensures var path := Paths(directory, Songs(entries)[..SongCount])[k];
            path[..|directory| + 1] == directory + "/" && HasSuffix(path, Mp3)
  {
    var name := Songs(entries)[k];
    var path := JoinPath(directory, name);
    assert path[..|directory| + 1] == directory + "/";
    JoinPathSuffix(directory, name);
    HasSuffixTail(path, name, Mp3);
  }

  /** A string that ends with `y`, where `y` ends with `x`, ends with `x`. */
  lemma HasSuffixTail(s: string, y: string, x: string)
    requires HasSuffix(s, y) && HasSuffix(y, x)
    ensures HasSuffix(s, x)
  {
    assert s[|s| - |x|..] == y[|y| - |x|..];
  }

  /**
   * The index check in `handle_client`: the 1-based song number must be
   * between 1 and `SONG_COUNT`, and selects `song_paths[idx - 1]`;
   * anything else closes the client.
   */
  function SelectSong(paths: seq<string>, requested: int): (r: Option<string>)
    requires |paths| == SongCount
    ensures r.Some? <==> 1 <= requested <= SongCount
    ensures r.Some? ==> r.value in paths && r.value == paths[requested - 1]
  {
    if 1 <= requested <= SongCount then Some(paths[requested - 1]) else None
  }

  /** Every song number a client may ask for selects a different song. */
  lemma SelectSongDistinct(paths: seq<string>, m: int, n: int)
    requires |paths| == SongCount && 1 <= m <= SongCount && 1 <= n <= SongCount && m != n
    requires forall j, k :: 0 <= j < k < |paths| ==> paths[j] != paths[k]
    ensures SelectSong(paths, m) != SelectSong(paths, n)
  {
    if m < n {
      assert paths[m - 1] != paths[n - 1];
    } else {
      assert paths[n - 1] != paths[m - 1];
    }
  }

  /** `struct Options` of the song server. */
  datatype Options = Options(port: int, musicDirectory: string)

  /** `set_options`: the port from the first argument (3000 when absent), the directory from the second (`./media` when absent). */
  function SetOptions(args: seq<Arg>): (r: Options)
    ensures |args| == 0 ==> r == Options(3000, "./media")
    ensures |args| >= 1 ==> r.port == args[0].asInt
    ensures |args| >= 2 ==> r.musicDirectory == args[1].text
    ensures |args| == 1 ==> r.musicDirectory == "./media"
  {
    Options(if |args| >= 1 then args[0].asInt else 3000,
            if |args| >= 2 then args[1].text else "./media")
  }
}
