/**
 * The file helpers' string logic: making a name safe for the file system, choosing a name
 * that does not exist yet, and filtering and sorting a directory listing.  The file system
 * is a parameter: the set of paths that exist, and a directory's entries in the order the
 * operating system lists them.
 */
module FileHandler {
  import opened PyStr
  import opened Paths
  import opened Sorting
  import opened Wrappers

  // ---------------------------------------------------------------- safe_filename

  /** The characters of the class `[<>:"/\\|?*]`, which `safe_filename` deletes. */
  const Unsafe: set<char> := {'<', '>', ':', '"', '/', '\\', '|', '?', '*'}

  /** `re.sub(r'[<>:"/\\|?*]', '', s)`. */
  function RemoveUnsafe(s: string): (r: string)
    ensures forall c :: c in r ==> c in s && c !in Unsafe
    ensures (forall c :: c in s ==> c !in Unsafe) ==> r == s
  {
    if s == [] then [] else (if s[0] in Unsafe then [] else [s[0]]) + RemoveUnsafe(s[1..])
  }

  /** `re.sub(r'_+', '_', s)`: every run of underscores becomes one. */
  function CollapseUnderscores(s: string): (r: string)
    ensures forall c :: c in r ==> c in s
    ensures |r| <= |s|
    decreases |s|
  {
    if s == [] then []
    else if |s| >= 2 && s[0] == '_' && s[1] == '_' then CollapseUnderscores(s[1..])
    else [s[0]] + CollapseUnderscores(s[1..])
  }

  /** Two underscores in a row. */
  predicate DoubleUnderscore(s: string)
  {
    exists i :: 0 <= i < |s| - 1 && s[i] == '_' && s[i + 1] == '_'
  }

  /** `safe_filename`: drop the unsafe characters, spaces to underscores, collapse underscores, never empty. */
  function SafeFilename(filename: string): (r: string)
    ensures r != []
  {
    var safe := CollapseUnderscores(ReplaceChar(RemoveUnsafe(filename), ' ', "_"));
    if safe == [] then "unnamed" else safe
  }

  /** The first character survives the collapse, and so does its kind. */
  lemma CollapseHead(s: string)
    requires s != []
    ensures CollapseUnderscores(s) != [] && CollapseUnderscores(s)[0] == s[0]
    decreases |s|
  {
    if |s| >= 2 && s[0] == '_' && s[1] == '_' {
      CollapseHead(s[1..]);
    }
  }

  /** After the collapse no two underscores are adjacent. */
  lemma {:induction false} CollapseNoDouble(s: string)
    ensures !DoubleUnderscore(CollapseUnderscores(s))
    decreases |s|
  {
    if s != [] {
      CollapseNoDouble(s[1..]);
      var r := CollapseUnderscores(s);
      if !(|s| >= 2 && s[0] == '_' && s[1] == '_') {
        var rest := CollapseUnderscores(s[1..]);
        assert r == [s[0]] + rest;
        if rest != [] {
          CollapseHead(s[1..]);
        }
      }
    }
  }

  /** Text without adjacent underscores is left as it is. */
  lemma {:induction false} CollapseIdentity(s: string)
    requires !DoubleUnderscore(s)
    ensures CollapseUnderscores(s) == s
    decreases |s|
  {
    if s != [] {
      CollapseIdentity(s[1..]);
    }
  }

  /**
   * The name `safe_filename` returns is never empty and holds no unsafe character, no space
   * and no two underscores in a row.
   */
  lemma SafeFilenameSafe(filename: string)
    ensures var r := SafeFilename(filename);
            r != [] && (forall c :: c in r ==> c !in Unsafe && c != ' ') && !DoubleUnderscore(r)
  {
    var spaced := ReplaceChar(RemoveUnsafe(filename), ' ', "_");
    CollapseNoDouble(spaced);
    SpacedSafe(filename);
    if CollapseUnderscores(spaced) == [] {
      UnnamedSafe();
    }
  }

  lemma SpacedSafe(filename: string)
    ensures forall c :: c in ReplaceChar(RemoveUnsafe(filename), ' ', "_") ==> c !in Unsafe && c != ' '
  {
    var removed := RemoveUnsafe(filename);
    ReplaceCharOneForOne(removed, ' ', '_');
    forall c | c in ReplaceChar(removed, ' ', "_") ensures c !in Unsafe && c != ' ' {
      var k :| 0 <= k < |removed| && ReplaceChar(removed, ' ', "_")[k] == c;
      assert removed[k] in removed;
    }
  }

  lemma UnnamedSafe()
    ensures (forall c :: c in "unnamed" ==> c !in Unsafe && c != ' ') && !DoubleUnderscore("unnamed")
  {
    assert forall i :: 0 <= i < 7 ==> "unnamed"[i] != '_';
  }

  /** A safe name is its own safe name, so `safe_filename` is idempotent. */
  lemma SafeFilenameIdempotent(filename: string)
    ensures SafeFilename(SafeFilename(filename)) == SafeFilename(filename)
  {
    var r := SafeFilename(filename);
    SafeFilenameSafe(filename);
    assert RemoveUnsafe(r) == r;
    ReplaceCharRemoves(r, ' ', "_");
    assert ReplaceChar(r, ' ', "_") == r;
    CollapseIdentity(r);
  }

  /** The characters `safe_filename` neither deletes nor rewrites. */
  predicate Kept(c: char)
  {
    c !in Unsafe && c != ' ' && c != '_'
  }

  function KeptChars(s: string): (r: string)
    ensures forall c :: c in r ==> Kept(c)
  {
    if s == [] then [] else (if Kept(s[0]) then [s[0]] else []) + KeptChars(s[1..])
  }

  lemma {:induction false} KeptRemoveUnsafe(s: string)
    ensures KeptChars(RemoveUnsafe(s)) == KeptChars(s)
  {
    if s != [] {
      KeptRemoveUnsafe(s[1..]);
      KeptConcat(if s[0] in Unsafe then [] else [s[0]], RemoveUnsafe(s[1..]));
      KeptConcat([s[0]], s[1..]);
      assert s == [s[0]] + s[1..];
    }
  }

  lemma {:induction false} KeptSpaces(s: string)
    ensures KeptChars(ReplaceChar(s, ' ', "_")) == KeptChars(s)
  {
    if s != [] {
      KeptSpaces(s[1..]);
      KeptConcat(if s[0] == ' ' then "_" else [s[0]], ReplaceChar(s[1..], ' ', "_"));
      KeptConcat([s[0]], s[1..]);
      assert s == [s[0]] + s[1..];
    }
  }

  lemma {:induction false} KeptCollapse(s: string)
    ensures KeptChars(CollapseUnderscores(s)) == KeptChars(s)
    decreases |s|
  {
    if s != [] {
      KeptCollapse(s[1..]);
    }
  }

  /** Every other character of the name is kept, in order: only unsafe characters, spaces and underscores change. */
  lemma SafeFilenameKeeps(filename: string)
    requires KeptChars(filename) != []
    ensures KeptChars(SafeFilename(filename)) == KeptChars(filename)
  {
    var removed := RemoveUnsafe(filename);
    var spaced := ReplaceChar(removed, ' ', "_");
    KeptRemoveUnsafe(filename);
    KeptSpaces(removed);
    KeptCollapse(spaced);
  }

  lemma {:induction false} KeptConcat(a: string, b: string)
    ensures KeptChars(a + b) == KeptChars(a) + KeptChars(b)
  {
    if a != [] {
      KeptConcat(a[1..], b);
      assert (a + b)[0] == a[0] && (a + b)[1..] == a[1..] + b;
      var h := if Kept(a[0]) then [a[0]] else [];
      assert KeptChars(a + b) == h + KeptChars(a[1..] + b);
      assert KeptChars(a) == h + KeptChars(a[1..]);
    } else {
      assert a + b == b;
    }
  }

  // ---------------------------------------------------------------- get_unique_filename

  /** `directory / f"{stem}_{counter}{suffix}"`. */
  function Candidate(directory: string, stem: string, counter: nat, suffix: string): string
  {
    JoinPath(directory, stem + "_" + NatToString(counter) + suffix)
  }

  /** Different counters give different paths. */
  lemma CandidateInjective(directory: string, stem: string, m: nat, n: nat, suffix: string)
    requires Candidate(directory, stem, m, suffix) == Candidate(directory, stem, n, suffix)
    ensures m == n
  {
    var p := directory + "/" + stem + "_";
    var a := Candidate(directory, stem, m, suffix);
    var b := Candidate(directory, stem, n, suffix);
    assert a == p + NatToString(m) + suffix;
    assert b == p + NatToString(n) + suffix;
    assert |NatToString(m)| == |NatToString(n)|;
    assert NatToString(m) == a[|p|..|a| - |suffix|];
    assert NatToString(n) == b[|p|..|b| - |suffix|];
    NatToStringInjective(m, n);
  }

  /** The counter `get_unique_filename` settles on: it is free, and every smaller one from 1 is taken. */
  predicate FirstFree(directory: string, stem: string, n: nat, suffix: string, existing: set<string>)
  {
    n >= 1 && Candidate(directory, stem, n, suffix) !in existing &&
    forall k :: 1 <= k < n ==> Candidate(directory, stem, k, suffix) in existing
  }

  /**
   * `get_unique_filename`, with the paths that exist given as a set: the joined path when it
   * is free, otherwise `stem_N` plus the suffix for the smallest free `N` from 1.
   */
  method GetUniqueFilename(directory: string, filename: string, existing: set<string>) returns (path: string)
    ensures path !in existing
    ensures JoinPath(directory, filename) !in existing ==> path == JoinPath(directory, filename)
    ensures JoinPath(directory, filename) in existing ==>
              var name := Name(filename);
              exists n :: FirstFree(directory, Stem(name), n, Suffix(name), existing) &&
                          path == Candidate(directory, Stem(name), n, Suffix(name))
  {
    var basePath := JoinPath(directory, filename);
    if basePath !in existing {
      return basePath;
    }
    var stem := Stem(Name(filename));
    var suffix := Suffix(Name(filename));
    var counter := 1;
    ghost var taken: set<string> := {};
    while true
      invariant counter >= 1
      invariant forall k :: 1 <= k < counter ==> Candidate(directory, stem, k, suffix) in existing
      invariant forall p :: p in taken ==> exists k :: 1 <= k < counter && p == Candidate(directory, stem, k, suffix)
      invariant taken <= existing
      decreases existing - taken
    {
      var newPath := Candidate(directory, stem, counter, suffix);
      if newPath !in existing {
        return newPath;
      }
      if newPath in taken {
        var k :| 1 <= k < counter && newPath == Candidate(directory, stem, k, suffix);
        CandidateInjective(directory, stem, k, counter, suffix);
        assert false;
      }
      assert taken + {newPath} <= existing;
      taken := taken + {newPath};
      counter := counter + 1;
    }
  }

  // ---------------------------------------------------------------- list_files

  /** One entry of a directory listing. */
  datatype Entry = Entry(name: string, isFile: bool)

  /** Whether `list_files` keeps an entry: a file, and, when extensions are given, one whose lower-cased suffix is listed. */
  predicate Listed(e: Entry, extensions: Option<seq<string>>)
  {
    e.isFile && (extensions.None? || Lower(Suffix(e.name)) in extensions.value)
  }

  /** The kept entries as paths, in listing order. */
  function Filtered(directory: string, entries: seq<Entry>, extensions: Option<seq<string>>): (r: seq<string>)
    ensures |r| <= |entries|
  {
    if entries == [] then []
    else
      var rest := Filtered(directory, entries[..|entries| - 1], extensions);
      var e := entries[|entries| - 1];
      if Listed(e, extensions) then rest + [JoinPath(directory, e.name)] else rest
  }

  /** `list_files`: nothing for a missing directory, otherwise the kept files, sorted. */
  function ListedFiles(directory: string, dirExists: bool, entries: seq<Entry>, extensions: Option<seq<string>>): seq<string>
  {
    if !dirExists then [] else Sort(Filtered(directory, entries, extensions))
  }

  method ListFiles(directory: string, dirExists: bool, entries: seq<Entry>, extensions: Option<seq<string>>)
    returns (files: seq<string>)
    ensures files == ListedFiles(directory, dirExists, entries, extensions)
  {
    if !dirExists {
      return [];
    }
    var found: seq<string> := [];
    var i := 0;
    while i < |entries|
      invariant 0 <= i <= |entries|
      invariant found == Filtered(directory, entries[..i], extensions)
    {
      assert entries[..i + 1][..i] == entries[..i];
      if entries[i].isFile {
        if extensions.None? || Lower(Suffix(entries[i].name)) in extensions.value {
          found := found + [JoinPath(directory, entries[i].name)];
        }
      }
      i := i + 1;
    }
    assert entries[..|entries|] == entries;
    files := Sort(found);
  }

  /**
   * The listing holds exactly the kept files, each as often as the directory lists it (the
   * same multiset as the kept paths in listing order), and in sorted order; with no extension filter every file is kept.
   */
  lemma ListedFilesSpec(directory: string, entries: seq<Entry>, extensions: Option<seq<string>>)
    ensures var r := ListedFiles(directory, true, entries, extensions);
            Sorted(r) && multiset(r) == multiset(Filtered(directory, entries, extensions)) &&
            forall p :: p in r <==> exists e :: e in entries && Listed(e, extensions) && p == JoinPath(directory, e.name)
  {
    var r := ListedFiles(directory, true, entries, extensions);
    FilteredMembers(directory, entries, extensions);
    forall p ensures p in r <==> p in Filtered(directory, entries, extensions) {
      assert p in r <==> p in multiset(r);
      assert p in Filtered(directory, entries, extensions) <==> p in multiset(Filtered(directory, entries, extensions));
    }
  }

  lemma {:induction false} FilteredMembers(directory: string, entries: seq<Entry>, extensions: Option<seq<string>>)
    ensures forall p :: p in Filtered(directory, entries, extensions) <==>
                        exists e :: e in entries && Listed(e, extensions) && p == JoinPath(directory, e.name)
  {
    if entries != [] {
      var init := entries[..|entries| - 1];
      FilteredMembers(directory, init, extensions);
      assert entries == init + [entries[|entries| - 1]];
      forall p | exists e :: e in entries && Listed(e, extensions) && p == JoinPath(directory, e.name)
        ensures p in Filtered(directory, entries, extensions)
      {
        var e :| e in entries && Listed(e, extensions) && p == JoinPath(directory, e.name);
        if e != entries[|entries| - 1] {
          assert e in init;
        }
      }
    }
  }
}
