/** show and load of ctl.c: saving the playing queue as text, with marks or without, and restoring it. */
module LoadShow {
  import opened Common
  import opened Playlist
  import opened Daemon
  import opened CanonPath
  import opened Transactions

  // ---------- printing ----------

  /** One song of show; -p puts a mark before it. */
  function Line(path: string, playing: bool, pretty: bool): string {
    (if !pretty then "" else if playing then "> " else "  ") + path + "\n"
  }

  /** What show prints for the replies, up to the one that ends the list. */
  function Printed(replies: seq<Reply>, pretty: bool): string {
    if replies == [] || !replies[0].ShowSong? then ""
    else Line(replies[0].path, replies[0].playing, pretty) + Printed(replies[1..], pretty)
  }

  lemma {:induction false} PrintedStep(text: string, replies: seq<Reply>, i: nat, pretty: bool)
    requires i < |replies| && replies[i].ShowSong?
    ensures text + Printed(replies[i..], pretty)
         == text + Line(replies[i].path, replies[i].playing, pretty) + Printed(replies[i + 1..], pretty)
  {
    assert replies[i..][1..] == replies[i + 1..];
  }

  /** The mark and the path of one song. */
  method PrintSong(path: string, playing: bool, pretty: bool) returns (line: string)
    ensures line == Line(path, playing, pretty)
  {
    var mark := "";
    if pretty {
      var c := if playing then '>' else ' ';
      mark := [c] + " ";
      assert mark == if playing then "> " else "  ";
    }
    line := mark + path + "\n";
  }

  /** The branch of SHOW in ctlaction. */
  method Show(replies: seq<Reply>, pretty: bool) returns (text: string)
    ensures text == Printed(replies, pretty)
  {
    text := "";
    ghost var goal := Printed(replies, pretty);
    var i: nat := 0;
    assert replies[0..] == replies && "" + goal == goal;
    while i < |replies| && replies[i].ShowSong?
      invariant i <= |replies| && text + Printed(replies[i..], pretty) == goal
    {
      PrintedStep(text, replies, i, pretty);
      var line := PrintSong(replies[i].path, replies[i].playing, pretty);
      text := text + line;
      i := i + 1;
    }
    assert Printed(replies[i..], pretty) == "" && text + "" == text;
  }

  // ---------- loading ----------

  /** How much of the text getline takes: up to and including the next newline. */
  function LineLength(text: string): (n: nat)
    requires text != ""
    ensures 0 < n <= |text|
  {
    if text[0] == '\n' || |text| == 1 then 1 else 1 + LineLength(text[1..])
  }

  /** A C string ends at the first terminator. */
  function CString(s: string): (r: string)
    ensures |r| <= |s| && '\0' !in r
  {
    if s == "" || s[0] == '\0' then "" else [s[0]] + CString(s[1..])
  }

  /** A line as load sees it: the last character is gone, and so is the mark; the flag tells whether it was "> ". */
  function Entry(line: string): (string, bool)
    requires line != ""
  {
    var file := CString(line[..|line| - 1]);
    if |file| >= 2 && file[..2] == "> " then (file[2..], true)
    else if |file| >= 2 && file[..2] == "  " then (file[2..], false)
    else (file, false)
  }

  datatype Loaded = Loaded(adds: seq<string>, curr: int)

  /** canonpath in a working directory, as load calls it. */
  function Canoniser(cwd: string): string -> Option<string>
    requires Rooted(cwd)
  {
    input => Canon(cwd, input, PATH_MAX)
  }

  /** What load adds and the position it commits, line by line. */
  function Load(canon: string -> Option<string>, text: string, loaded: Loaded): Loaded
    decreases |text|
  {
    if text == "" then loaded
    else
      var n := LineLength(text);
      Load(canon, text[n..], LoadEntry(canon, Entry(text[..n]), loaded))
  }

  /** One line: a mark sets the position even when the path is refused. */
  function LoadEntry(canon: string -> Option<string>, entry: (string, bool), loaded: Loaded): Loaded {
    var path := canon(entry.0);
    Loaded(if path.Some? then loaded.adds + [path.value] else loaded.adds,
           if entry.1 then |loaded.adds| else loaded.curr)
  }

  const NOTHING := Loaded([], -1)

  lemma {:induction false} CStringOf(s: string, r: string)
    requires |r| < |s| && s[..|r|] == r && s[|r|] == '\0' && '\0' !in r
    ensures CString(s) == r
  {
    if r != "" {
      assert r[0] == s[0] && s[1..][..|r| - 1] == r[1..];
      CStringOf(s[1..], r[1..]);
    }
  }

  lemma {:induction false} NoTerminator(s: string, n: nat)
    requires '\0' !in s && n <= |s|
    ensures '\0' !in s[n..] && '\0' !in s[..n]
  {
  }

  /** getline, the marks and canonpath for one line. */
  method ReadLine(cwd: string, text: string, p: nat) returns (next: nat, marked: bool, path: Option<string>)
    requires Rooted(cwd) && '\0' !in cwd && p < |text|
    ensures next == p + LineLength(text[p..]) <= |text|
    ensures var e := Entry(text[p..next]); marked == e.1 && path == Canoniser(cwd)(e.0)
  {
    next := p + LineLength(text[p..]);
    var line := text[p..next];
    var file := CString(line[..|line| - 1]);
    marked := false;
    if |file| >= 2 && file[..2] == "> " {
      NoTerminator(file, 2);
      file, marked := file[2..], true;
    } else if |file| >= 2 && file[..2] == "  " {
      NoTerminator(file, 2);
      file := file[2..];
    }
    var buf := new char[PATH_MAX](_ => '\0');
    var ok := Canonpath(cwd, file, buf);
    path := None;
    if ok {
      ResultIsCanonical(cwd, file, PATH_MAX);
      ghost var r := Canon(cwd, file, PATH_MAX).value;
      CanonicalNoTerminator(r);
      CStringOf(buf[..], r);
      path := Some(CString(buf[..]));
    }
  }

  lemma {:induction false} CanonicalNoTerminator(path: string)
    requires Canonical(path)
    ensures '\0' !in path && Rooted(path)
  {
    var stack :| AllNormal(stack) && path == Join(stack);
    JoinRooted(stack);
  }

  lemma {:induction false} LoadStep(canon: string -> Option<string>, text: string, p: nat, loaded: Loaded)
    requires p < |text|
    ensures var next := p + LineLength(text[p..]);
            Load(canon, text[p..], loaded) == Load(canon, text[next..], LoadEntry(canon, Entry(text[p..next]), loaded))
  {
    var n := LineLength(text[p..]);
    assert text[p..][..n] == text[p..p + n];
    assert text[p..][n..] == text[p + n..];
  }

  /** What was read of a line, taken into account. */
  function Counted(l: Loaded, marked: bool, path: Option<string>): Loaded {
    Loaded(if path.Some? then l.adds + [path.value] else l.adds, if marked then |l.adds| else l.curr)
  }

  lemma {:induction false} LineRead(canon: string -> Option<string>, text: string, p: nat, next: nat, l: Loaded,
      marked: bool, path: Option<string>)
    requires p < |text| && next == p + LineLength(text[p..]) <= |text|
    requires var e := Entry(text[p..next]); marked == e.1 && path == canon(e.0)
    ensures Load(canon, text[next..], Counted(l, marked, path)) == Load(canon, text[p..], l)
  {
    LoadStep(canon, text, p, l);
  }

  /** One round of load_files. */
  method LoadOne(cwd: string, text: string, p: nat, adds: seq<string>, curr: int)
      returns (next: nat, adds': seq<string>, curr': int)
    requires Rooted(cwd) && '\0' !in cwd && p < |text|
    ensures p < next <= |text|
    ensures Load(Canoniser(cwd), text[next..], Loaded(adds', curr'))
            == Load(Canoniser(cwd), text[p..], Loaded(adds, curr))
  {
    var marked, path;
    next, marked, path := ReadLine(cwd, text, p);
    curr' := if marked then |adds| else curr;
    adds' := if path.Some? then adds + [path.value] else adds;
    LineRead(Canoniser(cwd), text, p, next, Loaded(adds, curr), marked, path);
  }

  /** load_files: the paths added, in order, and the position to commit. */
  method LoadFiles(cwd: string, text: string) returns (adds: seq<string>, curr: int)
    requires Rooted(cwd) && '\0' !in cwd
    ensures Loaded(adds, curr) == Load(Canoniser(cwd), text, NOTHING)
  {
    adds, curr := [], -1;
    var p: nat := 0;
    ghost var goal := Load(Canoniser(cwd), text, NOTHING);
    assert text[0..] == text;
    while p < |text|
      invariant p <= |text| && Load(Canoniser(cwd), text[p..], Loaded(adds, curr)) == goal
    {
      p, adds, curr := LoadOne(cwd, text, p, adds, curr);
    }
  }

  // ---------- saving and restoring ----------

  /**
   The songs that load restores: canonical paths without newlines that fit, the
   root directory, which is stored as the empty string, only if load runs there.
   */
  ghost predicate Restorable(cwd: string, song: string) {
    Canonical(song) && '\n' !in song && |song| < PATH_MAX && (song != "" || cwd == "/")
  }

  ghost predicate AllRestorable(cwd: string, songs: seq<string>) {
    forall i :: 0 <= i < |songs| ==> Restorable(cwd, songs[i])
  }

  /** A path as a line can hold it. */
  predicate Plain(file: string) {
    '\n' !in file && '\0' !in file
  }

  ghost predicate AllPlain(songs: seq<string>) {
    forall i :: 0 <= i < |songs| ==> Plain(songs[i])
  }

  lemma {:induction false} LineLengthOf(a: string, more: string)
    requires '\n' !in a
    ensures LineLength(a + "\n" + more) == |a| + 1
  {
    var text := a + "\n" + more;
    if a == "" {
      assert text[0] == '\n';
    } else {
      assert text[0] == a[0] && text[1..] == a[1..] + "\n" + more;
      LineLengthOf(a[1..], more);
    }
  }

  lemma {:induction false} CStringWhole(s: string)
    requires '\0' !in s
    ensures CString(s) == s
  {
    if s != "" {
      CStringWhole(s[1..]);
    }
  }

  /** Nothing at the front of the line is taken for a mark. */
  predicate Unmarked(file: string) {
    |file| < 2 || (file[..2] != "> " && file[..2] != "  ")
  }

  /** The name is read as it is: behind a mark, or because it does not look like one. */
  predicate Readable(file: string, pretty: bool) {
    pretty || Unmarked(file)
  }

  ghost predicate AllReadable(songs: seq<string>, pretty: bool) {
    forall i :: 0 <= i < |songs| ==> Readable(songs[i], pretty)
  }

  lemma {:induction false} EntryOf(song: string, playing: bool, pretty: bool)
    requires '\0' !in song && Readable(song, pretty)
    ensures Entry(Line(song, playing, pretty)) == (song, playing && pretty)
  {
    var mark := if !pretty then "" else if playing then "> " else "  ";
    var line := Line(song, playing, pretty);
    assert line[..|line| - 1] == mark + song;
    CStringWhole(mark + song);
    if pretty {
      assert (mark + song)[..2] == mark && (mark + song)[2..] == song;
    } else {
      assert mark + song == song;
    }
  }

  lemma {:induction false} LineIsRead(canon: string -> Option<string>, song: string, playing: bool, pretty: bool,
      more: string, loaded: Loaded)
    requires '\n' !in song && '\0' !in song && Readable(song, pretty)
    ensures Load(canon, Line(song, playing, pretty) + more, loaded)
            == Load(canon, more, LoadEntry(canon, (song, playing && pretty), loaded))
  {
    var mark := if !pretty then "" else if playing then "> " else "  ";
    var text := Line(song, playing, pretty) + more;
    LineLengthOf(mark + song, more);
    var n := LineLength(text);
    EntryOf(song, playing, pretty);
    assert text[..n] == Line(song, playing, pretty) && text[n..] == more;
  }

  /** Where load is after the lines of i songs. */
  function After(canon: string -> Option<string>, songs: seq<string>, off: int, i: nat): Loaded
    requires i <= |songs|
  {
    if i == 0 then NOTHING else LoadEntry(canon, (songs[i - 1], i - 1 == off), After(canon, songs, off, i - 1))
  }

  /** The position the marks tell. */
  function MarkedAt(off: int, pretty: bool): int {
    if pretty then off else -1
  }

  lemma {:induction false} PrintedAt(songs: seq<string>, off: int, i: nat, pretty: bool)
    requires i < |songs|
    ensures Printed(Listing(songs, off)[i..], pretty)
         == Line(songs[i], i == off, pretty) + Printed(Listing(songs, off)[i + 1..], pretty)
  {
    assert Listing(songs, off)[i..][1..] == Listing(songs, off)[i + 1..];
  }

  lemma {:induction false} PrintedEnd(songs: seq<string>, off: int, pretty: bool)
    ensures Printed(Listing(songs, off)[|songs|..], pretty) == ""
  {
    assert Listing(songs, off)[|songs|..] == [ShowEnd];
  }

  /** Songs without newlines are read one by one. */
  lemma {:induction false} PrefixLoaded(canon: string -> Option<string>, songs: seq<string>, off: int, i: nat,
      pretty: bool)
    requires i <= |songs| && AllPlain(songs[..i]) && AllReadable(songs[..i], pretty)
    ensures Load(canon, Printed(Listing(songs, off), pretty), NOTHING)
         == Load(canon, Printed(Listing(songs, off)[i..], pretty), After(canon, songs, MarkedAt(off, pretty), i))
  {
    if i == 0 {
      assert Listing(songs, off)[0..] == Listing(songs, off);
    } else {
      var k := i - 1;
      assert forall x :: 0 <= x < k ==> songs[..k][x] == songs[..i][x];
      PrefixLoaded(canon, songs, off, k, pretty);
      assert songs[k] == songs[..i][k];
      var at := MarkedAt(off, pretty);
      OneLoaded(canon, songs, off, k, After(canon, songs, at, k), pretty);
      AfterOneMore(canon, songs, at, k);
    }
  }

  lemma {:induction false} AfterOneMore(canon: string -> Option<string>, songs: seq<string>, at: int, k: nat)
    requires k < |songs|
    ensures After(canon, songs, at, k + 1) == LoadEntry(canon, (songs[k], k == at), After(canon, songs, at, k))
  {
  }

  lemma {:induction false} OneLoaded(canon: string -> Option<string>, songs: seq<string>, off: int, k: nat,
      loaded: Loaded, pretty: bool)
    requires k < |songs| && Plain(songs[k]) && Readable(songs[k], pretty)
    ensures Load(canon, Printed(Listing(songs, off)[k..], pretty), loaded)
         == Load(canon, Printed(Listing(songs, off)[k + 1..], pretty),
                 LoadEntry(canon, (songs[k], k == MarkedAt(off, pretty)), loaded))
  {
    PrintedAt(songs, off, k, pretty);
    LineIsRead(canon, songs[k], k == off, pretty, Printed(Listing(songs, off)[k + 1..], pretty), loaded);
  }

  ghost predicate AllAccepted(canon: string -> Option<string>, songs: seq<string>) {
    forall k :: 0 <= k < |songs| ==> canon(songs[k]).Some?
  }

  /** One path for each song exactly when none is refused; the position counts along. */
  lemma {:induction false} AfterExact(canon: string -> Option<string>, songs: seq<string>, off: int, i: nat)
    requires i <= |songs|
    ensures var l := After(canon, songs, off, i);
            && |l.adds| <= i
            && (|l.adds| == i <==> AllAccepted(canon, songs[..i]))
            && (|l.adds| == i ==>
                  && (forall k :: 0 <= k < i ==> canon(songs[k]) == Some(l.adds[k]))
                  && l.curr == if 0 <= off < i then off else -1)
  {
    if i > 0 {
      AfterExact(canon, songs, off, i - 1);
      assert forall k :: 0 <= k < i - 1 ==> songs[..i - 1][k] == songs[..i][k] == songs[k];
      assert songs[..i][i - 1] == songs[i - 1];
    }
  }

  /** Songs without newlines are restored exactly when canonpath leaves each as it is. */
  lemma {:induction false} PlainRestoredIff(canon: string -> Option<string>, songs: seq<string>, off: int, pretty: bool)
    requires AllPlain(songs) && AllReadable(songs, pretty) && -1 <= off < |songs|
    ensures var l := Load(canon, Printed(Listing(songs, off), pretty), NOTHING);
            && (l.adds == songs <==> forall k :: 0 <= k < |songs| ==> canon(songs[k]) == Some(songs[k]))
            && (l.adds == songs ==> l.curr == MarkedAt(off, pretty))
  {
    var n, at := |songs|, MarkedAt(off, pretty);
    assert songs[..n] == songs;
    PrefixLoaded(canon, songs, off, n, pretty);
    PrintedEnd(songs, off, pretty);
    AfterExact(canon, songs, at, n);
    var adds := After(canon, songs, at, n).adds;
    if forall k :: 0 <= k < n ==> canon(songs[k]) == Some(songs[k]) {
      assert AllAccepted(canon, songs);
      assert forall k :: 0 <= k < n ==> adds[k] == songs[k];
    }
  }

  /** canonpath leaves these paths as they are, and no others. */
  lemma {:induction false} KeptIff(cwd: string, song: string)
    requires Reported(cwd) && Rooted(cwd) && '\0' !in song
    ensures Canoniser(cwd)(song) == Some(song) <==> Canonical(song) && |song| < PATH_MAX && (song != "" || cwd == "/")
  {
    ReportedRooted(cwd);
    if song == "" {
      assert Canonical("") by { assert "" == Join([]) && AllNormal([]); }
      if cwd == "/" { EmptyAtRoot(PATH_MAX); } else { EmptyIsCwd(cwd, PATH_MAX); }
    } else {
      if Canoniser(cwd)(song) == Some(song) { ResultIsCanonical(cwd, song, PATH_MAX); }
      if Canonical(song) { CanonicalIsKept(cwd, song, PATH_MAX); }
    }
  }

  // ---------- what load can add at all ----------

  lemma {:induction false} LinePlain(text: string)
    requires text != ""
    ensures '\n' !in text[..LineLength(text) - 1]
  {
    if text[0] != '\n' && |text| != 1 {
      LinePlain(text[1..]);
      var n := LineLength(text);
      assert text[..n - 1] == [text[0]] + text[1..][..n - 2];
    }
  }

  lemma {:induction false} CStringMembers(s: string, ch: char)
    requires ch !in s
    ensures ch !in CString(s)
  {
    if s != "" { CStringMembers(s[1..], ch); }
  }

  lemma {:induction false} EntryPlain(line: string)
    requires line != "" && '\n' !in line[..|line| - 1]
    ensures Plain(Entry(line).0)
  {
    CStringMembers(line[..|line| - 1], '\n');
  }

  /** Whatever canonpath gives for every line is what load adds. */
  ghost predicate Gives(canon: string -> Option<string>, good: string -> bool) {
    forall file: string :: Plain(file) && canon(file).Some? ==> good(canon(file).value)
  }

  lemma {:induction false} LoadAddsGood(canon: string -> Option<string>, good: string -> bool, text: string,
      loaded: Loaded)
    requires Gives(canon, good)
    ensures loaded.adds <= Load(canon, text, loaded).adds
    ensures (forall s :: s in loaded.adds ==> good(s)) ==> forall s :: s in Load(canon, text, loaded).adds ==> good(s)
    decreases |text|
  {
    if text != "" {
      var n := LineLength(text);
      LinePlain(text);
      assert text[..n][..n - 1] == text[..n - 1];
      EntryPlain(text[..n]);
      LoadAddsGood(canon, good, text[n..], LoadEntry(canon, Entry(text[..n]), loaded));
    }
  }

  /** Every path load adds is canonical and fits. */
  lemma {:induction false} AddsCanonical(cwd: string, text: string)
    requires Rooted(cwd) && '\0' !in cwd
    ensures forall s :: s in Load(Canoniser(cwd), text, NOTHING).adds ==> Canonical(s) && |s| < PATH_MAX
  {
    ghost var good := (s: string) => Canonical(s) && |s| < PATH_MAX;
    forall file: string | Plain(file) && Canoniser(cwd)(file).Some? ensures good(Canoniser(cwd)(file).value) {
      ResultIsCanonical(cwd, file, PATH_MAX);
    }
    LoadAddsGood(Canoniser(cwd), good, text, NOTHING);
  }

  /** Without a newline in the working directory, or with one too long to be used, no added path has one. */
  lemma {:induction false} AddsWithoutNewline(cwd: string, text: string)
    requires Rooted(cwd) && ('\n' !in cwd || PATH_MAX <= |cwd| + 1)
    ensures forall s :: s in Load(Canoniser(cwd), text, NOTHING).adds ==> '\n' !in s
  {
    ghost var good := (s: string) => '\n' !in s;
    forall file: string | Plain(file) && Canoniser(cwd)(file).Some? ensures good(Canoniser(cwd)(file).value) {
      ResultWithout(cwd, file, PATH_MAX, '\n');
    }
    LoadAddsGood(Canoniser(cwd), good, text, NOTHING);
  }

  // ---------- a newline in a song ----------

  /** The first newline of a song. */
  function FirstNewline(song: string): (k: nat)
    requires '\n' in song
    ensures k < |song| && song[k] == '\n' && '\n' !in song[..k]
  {
    if song[0] == '\n' then 0
    else
      var k := 1 + FirstNewline(song[1..]);
      assert song[..k] == [song[0]] + song[1..][..k - 1];
      k
  }

  /** The line of such a song ends at the newline. */
  lemma {:induction false} BrokenLine(canon: string -> Option<string>, song: string, playing: bool, pretty: bool,
      more: string, loaded: Loaded)
    requires '\n' in song && '\0' !in song && Readable(song[..FirstNewline(song)], pretty)
    ensures var k := FirstNewline(song);
            Load(canon, Line(song, playing, pretty) + more, loaded)
              == Load(canon, song[k + 1..] + "\n" + more, LoadEntry(canon, (song[..k], playing && pretty), loaded))
  {
    var k := FirstNewline(song);
    assert Line(song, playing, pretty) + more == Line(song[..k], playing, pretty) + (song[k + 1..] + "\n" + more) by {
      assert song == song[..k] + "\n" + song[k + 1..];
    }
    LineIsRead(canon, song[..k], playing, pretty, song[k + 1..] + "\n" + more, loaded);
  }

  /** Its first piece is added in its place, so the song itself is not. */
  lemma {:induction false} NewlineNotRestored(cwd: string, songs: seq<string>, off: int, j: nat, pretty: bool)
    requires Reported(cwd) && Rooted(cwd) && -1 <= off < |songs|
    requires forall i :: 0 <= i < |songs| ==> Canonical(songs[i]) && |songs[i]| < PATH_MAX
    requires j < |songs| && '\n' in songs[j] && AllPlain(songs[..j])
    ensures Load(Canoniser(cwd), Printed(Listing(songs, off), pretty), NOTHING).adds != songs
  {
    var canon, at := Canoniser(cwd), MarkedAt(off, pretty);
    if '\n' !in cwd || PATH_MAX <= |cwd| + 1 {
      AddsWithoutNewline(cwd, Printed(Listing(songs, off), pretty));
      assert songs[j] in songs;
    } else {
      CanonicalsAccepted(cwd, songs[..j]);
      CanonicalsReadable(songs[..j], pretty);
      AfterExact(canon, songs, at, j);
      PrefixLoaded(canon, songs, off, j, pretty);
      FirstPiece(cwd, songs[j]);
      PieceLoaded(canon, songs, off, j, After(canon, songs, at, j), pretty);
    }
  }

  /** A canonical path is empty or starts with a slash, so it does not look like a mark. */
  lemma {:induction false} CanonicalsReadable(songs: seq<string>, pretty: bool)
    requires forall i :: 0 <= i < |songs| ==> Canonical(songs[i])
    ensures AllReadable(songs, pretty)
  {
    forall i | 0 <= i < |songs| ensures Readable(songs[i], pretty) {
      CanonicalNoTerminator(songs[i]);
    }
  }

  lemma {:induction false} CanonicalsAccepted(cwd: string, songs: seq<string>)
    requires cwd != "" && Canonical(cwd) && Rooted(cwd) && |cwd| + 1 < PATH_MAX
    requires forall i :: 0 <= i < |songs| ==> Canonical(songs[i]) && |songs[i]| < PATH_MAX
    ensures AllAccepted(Canoniser(cwd), songs)
  {
    forall k | 0 <= k < |songs| ensures Canoniser(cwd)(songs[k]).Some? {
      if songs[k] == "" { EmptyIsCwd(cwd, PATH_MAX); } else { CanonicalIsKept(cwd, songs[k], PATH_MAX); }
    }
  }

  /** A canonical song starts with a slash, so its first piece is an absolute path, and accepted. */
  lemma {:induction false} FirstPiece(cwd: string, song: string)
    requires Rooted(cwd) && Canonical(song) && |song| < PATH_MAX && '\n' in song
    ensures '\0' !in song
    ensures var path := Canoniser(cwd)(song[..FirstNewline(song)]); path.Some? && '\n' !in path.value
    ensures Unmarked(song[..FirstNewline(song)])
  {
    CanonicalNoTerminator(song);
    var piece := song[..FirstNewline(song)];
    assert song[0] == '/' && piece[0] == '/';
    ShortInputSucceeds(cwd, piece, PATH_MAX);
    ResultWithout(cwd, piece, PATH_MAX, '\n');
  }

  /** With a path for each song before, the piece takes the place of the song. */
  lemma {:induction false} PieceLoaded(canon: string -> Option<string>, songs: seq<string>, off: int, j: nat,
      loaded: Loaded, pretty: bool)
    requires j < |songs| && |loaded.adds| == j && '\n' in songs[j] && '\0' !in songs[j]
    requires var path := canon(songs[j][..FirstNewline(songs[j])]); path.Some? && '\n' !in path.value
    requires Readable(songs[j][..FirstNewline(songs[j])], pretty)
    ensures Load(canon, Printed(Listing(songs, off)[j..], pretty), loaded).adds != songs
  {
    var song := songs[j];
    var k := FirstNewline(song);
    var more := Printed(Listing(songs, off)[j + 1..], pretty);
    PrintedAt(songs, off, j, pretty);
    BrokenLine(canon, song, j == off, pretty, more, loaded);
    var next := LoadEntry(canon, (song[..k], j == off && pretty), loaded);
    LoadAddsGood(canon, _ => true, song[k + 1..] + "\n" + more, next);
    assert next.adds[j] != song;
  }

  // ---------- the exact condition ----------

  /** The first song with a newline. */
  lemma {:induction false} FirstBroken(songs: seq<string>) returns (j: nat)
    requires forall i :: 0 <= i < |songs| ==> '\0' !in songs[i]
    requires !AllPlain(songs)
    ensures j < |songs| && '\n' in songs[j] && AllPlain(songs[..j])
  {
    if '\n' in songs[0] {
      j := 0;
    } else {
      var tail := songs[1..];
      assert forall i :: 0 <= i < |tail| ==> tail[i] == songs[i + 1];
      var k := FirstBroken(tail);
      j := k + 1;
      assert songs[..j] == [songs[0]] + tail[..k];
    }
  }

  /** For names without newlines. */
  lemma {:induction false} PlainRestorable(cwd: string, songs: seq<string>, off: int, pretty: bool)
    requires Reported(cwd) && Rooted(cwd) && -1 <= off < |songs| && AllPlain(songs) && AllReadable(songs, pretty)
    ensures var l := Load(Canoniser(cwd), Printed(Listing(songs, off), pretty), NOTHING);
            && (l.adds == songs <==> AllRestorable(cwd, songs))
            && (AllRestorable(cwd, songs) ==> l == Loaded(songs, MarkedAt(off, pretty)))
  {
    PlainRestoredIff(Canoniser(cwd), songs, off, pretty);
    forall i | 0 <= i < |songs|
      ensures Canoniser(cwd)(songs[i]) == Some(songs[i]) <==> Restorable(cwd, songs[i])
    {
      KeptIff(cwd, songs[i]);
    }
  }

  /**
   What show prints, with marks or without, load reads back, for every queue and in
   every working directory: the songs are restored if and only if each of them is a
   canonical path without a newline that fits, and not the root directory unless load
   runs there; then the marked position is restored as well.
   */
  lemma {:induction false} LoadRestoresIff(cwd: string, songs: seq<string>, off: int, pretty: bool)
    requires Reported(cwd) && Rooted(cwd) && -1 <= off < |songs|
    ensures var l := Load(Canoniser(cwd), Printed(Listing(songs, off), pretty), NOTHING);
            && (l.adds == songs <==> AllRestorable(cwd, songs))
            && (AllRestorable(cwd, songs) ==> l == Loaded(songs, MarkedAt(off, pretty)))
  {
    var l := Load(Canoniser(cwd), Printed(Listing(songs, off), pretty), NOTHING);
    ReportedRooted(cwd);
    AddsCanonical(cwd, Printed(Listing(songs, off), pretty));
    if l.adds == songs {
      assert forall i :: 0 <= i < |songs| ==> songs[i] in l.adds;
    }
    if forall i :: 0 <= i < |songs| ==> Canonical(songs[i]) && |songs[i]| < PATH_MAX {
      forall i | 0 <= i < |songs| ensures '\0' !in songs[i] { CanonicalNoTerminator(songs[i]); }
      if AllPlain(songs) {
        CanonicalsReadable(songs, pretty);
        PlainRestorable(cwd, songs, off, pretty);
      } else {
        var j := FirstBroken(songs);
        NewlineNotRestored(cwd, songs, off, j, pretty);
        assert !Restorable(cwd, songs[j]);
      }
    } else {
      assert !AllRestorable(cwd, songs);
    }
  }

  /**
   The root directory, stored as the empty string, is not restored: load takes
   the empty line for the working directory.
   */
  lemma {:induction false} RootIsNotRestored(cwd: string, pretty: bool)
    requires cwd != "" && Canonical(cwd) && Rooted(cwd) && |cwd| + 1 < PATH_MAX
    ensures Load(Canoniser(cwd), Printed(Listing([""], -1), pretty), NOTHING) == Loaded([cwd], -1)
  {
    var canon := Canoniser(cwd);
    EmptyIsCwd(cwd, PATH_MAX);
    assert canon("") == Some(cwd);
    RootLine(canon, cwd, pretty);
  }

  lemma {:induction false} RootLine(canon: string -> Option<string>, cwd: string, pretty: bool)
    requires canon("") == Some(cwd)
    ensures Load(canon, Printed(Listing([""], -1), pretty), NOTHING) == Loaded([cwd], -1)
  {
    PrintedAt([""], -1, 0, pretty);
    assert Listing([""], -1)[0..] == Listing([""], -1);
    assert Printed(Listing([""], -1)[1..], pretty) == "";
    LineIsRead(canon, "", false, pretty, "", NOTHING);
  }

  // ---------- lists of files from elsewhere ----------

  /** A list of names, one on each line. */
  function Lines(files: seq<string>): string {
    if files == [] then "" else files[0] + "\n" + Lines(files[1..])
  }

  /** The paths canonpath gives for them, without those it refuses. */
  function Paths(canon: string -> Option<string>, files: seq<string>): seq<string> {
    if files == [] then []
    else (if canon(files[0]).Some? then [canon(files[0]).value] else []) + Paths(canon, files[1..])
  }

  lemma {:induction false} AddedIs(canon: string -> Option<string>, file: string, loaded: Loaded)
    ensures LoadEntry(canon, (file, false), loaded) == loaded.(adds := loaded.adds + Paths(canon, [file]))
  {
    assert [file][1..] == [] && loaded.adds + [] == loaded.adds;
  }

  /** One name and then the others. */
  lemma {:induction false} PathsFirst(canon: string -> Option<string>, files: seq<string>, adds: seq<string>)
    requires files != []
    ensures adds + Paths(canon, [files[0]]) + Paths(canon, files[1..]) == adds + Paths(canon, files)
  {
    assert [files[0]][1..] == [];
    AppendAssoc(adds, Paths(canon, [files[0]]), Paths(canon, files[1..]));
  }

  /** A line without a mark: the path is added if canonpath accepts it, and no position is marked. */
  lemma {:induction false} UnmarkedLine(canon: string -> Option<string>, file: string, more: string, loaded: Loaded)
    requires Plain(file) && Unmarked(file)
    ensures Load(canon, file + "\n" + more, loaded) ==
            Load(canon, more, loaded.(adds := loaded.adds + Paths(canon, [file])))
  {
    LineIsRead(canon, file, false, false, more, loaded);
    assert Line(file, false, false) == file + "\n";
    AddedIs(canon, file, loaded);
  }

  /** A line with the mark: its place is the position, also if the path is refused; with two spaces it is not. */
  lemma {:induction false} MarkedLine(canon: string -> Option<string>, file: string, more: string, loaded: Loaded)
    requires Plain(file)
    ensures var adds := loaded.adds + Paths(canon, [file]);
            && Load(canon, "> " + file + "\n" + more, loaded) == Load(canon, more, Loaded(adds, |loaded.adds|))
            && Load(canon, "  " + file + "\n" + more, loaded) == Load(canon, more, Loaded(adds, loaded.curr))
  {
    LineIsRead(canon, file, true, true, more, loaded);
    LineIsRead(canon, file, false, true, more, loaded);
    AddedIs(canon, file, loaded);
    AddedIs(canon, file, loaded.(curr := |loaded.adds|));
  }

  /** A whole list: the accepted paths in order, at no marked position. */
  lemma {:induction false} ListLoads(canon: string -> Option<string>, files: seq<string>, loaded: Loaded)
    requires AllPlain(files) && AllReadable(files, false)
    ensures Load(canon, Lines(files), loaded) == loaded.(adds := loaded.adds + Paths(canon, files))
    decreases |files|
  {
    if files == [] {
      assert loaded.adds + [] == loaded.adds;
    } else {
      var file, rest := files[0], files[1..];
      assert forall i :: 0 <= i < |rest| ==> rest[i] == files[i + 1];
      UnmarkedLine(canon, file, Lines(rest), loaded);
      ListLoads(canon, rest, loaded.(adds := loaded.adds + Paths(canon, [file])));
      PathsFirst(canon, files, loaded.adds);
    }
  }

  /** A last line that does not end in a newline loses its last character instead. */
  lemma {:induction false} LastLineIsCut(canon: string -> Option<string>, file: string, last: char, loaded: Loaded)
    requires Plain(file) && Unmarked(file) && last != '\n'
    ensures Load(canon, file + [last], loaded) == loaded.(adds := loaded.adds + Paths(canon, [file]))
  {
    var text := file + [last];
    WholeLine(text);
    assert text[..|text|] == text && text[|text|..] == "" && text[..|text| - 1] == file;
    CStringWhole(file);
    assert Entry(text) == (file, false);
    AddedIs(canon, file, loaded);
    assert Load(canon, "", LoadEntry(canon, (file, false), loaded)) == LoadEntry(canon, (file, false), loaded);
  }

  lemma {:induction false} WholeLine(text: string)
    requires text != "" && '\n' !in text
    ensures LineLength(text) == |text|
  {
    if |text| != 1 { WholeLine(text[1..]); }
  }

  // ---------- over runs of the daemon ----------

  lemma {:induction false} BeginStaged(before: seq<Event>, fd: int, env: Env)
    requires Run(START, before).tx == NO_TX && fd in Run(START, before).conns
    ensures var m := Run(START, before + [Client(fd, CtlBegin, env)]); m.tx == fd && fd != NO_TX && m.staged == []
  {
    RunSnoc(START, before, Client(fd, CtlBegin, env));
  }

  lemma {:induction false} StagedMore(events: seq<Event>, e: Event, fd: int)
    requires Run(START, events).tx == fd && fd != NO_TX && !Ends(fd, e)
    ensures var m := Run(START, events + [e]); m.tx == fd && m.staged == Run(START, events).staged + AddsBy(fd, [e])
  {
    RunSnoc(START, events, e);
    LockStays(Run(START, events), e);
  }

  /** A transaction from its begin on: the staged list is what its owner added, whatever the others do. */
  lemma {:induction false} StagedSince(before: seq<Event>, fd: int, env: Env, during: seq<Event>)
    requires Run(START, before).tx == NO_TX && fd in Run(START, before).conns && NoEnd(fd, during)
    ensures var m := Run(START, before + [Client(fd, CtlBegin, env)] + during);
            m.tx == fd && m.staged == AddsBy(fd, during)
    decreases |during|
  {
    var begun := before + [Client(fd, CtlBegin, env)];
    BeginStaged(before, fd, env);
    if during == [] {
      assert begun + during == begun;
    } else {
      var n := |during| - 1;
      var earlier, e := during[..n], during[n];
      StagedSince(before, fd, env, earlier);
      assert during == earlier + [e];
      AppendAssoc(begun, earlier, [e]);
      StagedMore(begun + earlier, e, fd);
      AddsBySnoc(fd, earlier, e);
    }
  }

  lemma {:induction false} LockStays(m: Main, e: Event)
    requires Inv(m) && m.tx != NO_TX && !Ends(m.tx, e)
    ensures Handle(m, e).tx == m.tx && Handle(m, e).staged == m.staged + AddsBy(m.tx, [e])
  {
    LockStep(m, e);
    if e.Client? && e.fd in m.conns && !e.req.CtlBegin? && !e.req.CtlAdd? && !e.req.CtlCommit? {
      OtherRequests(m, e.fd, e.req, e.env);
    } else if e.FromPlayer? || e.fd != m.tx {
      OthersDoNotInterfere(m, e);
    }
  }

  lemma {:induction false} CommitDoes(m: Main, fd: int, off: int, env: Env)
    requires Inv(m) && m.tx == fd && 0 <= fd
    ensures Handle(m, Client(fd, CtlCommit(Some(off)), env)) ==
            m.(q := SwapIn(m.q, m.staged, off), staged := [], tx := NO_TX)
  {
  }

  /**
   show piped into load, over every run: if a client loads the text printed for
   some state of the queue, the commit restores its songs exactly when all of them
   can be restored, and then also the position that was marked or, when there was
   none, that of the current song.
   */
  lemma {:induction false} ShowLoadIdentity(shown: Queue, pretty: bool, cwd: string, before: seq<Event>, fd: int,
      env: Env, during: seq<Event>)
    requires shown.Valid() && Reported(cwd) && Rooted(cwd) && 0 <= fd
    requires Run(START, before).tx == NO_TX && fd in Run(START, before).conns && NoEnd(fd, during)
    requires AddsBy(fd, during) == Load(Canoniser(cwd), Printed(Listing(shown.songs, shown.off), pretty), NOTHING).adds
    ensures var curr := Load(Canoniser(cwd), Printed(Listing(shown.songs, shown.off), pretty), NOTHING).curr;
            var loaded := before + [Client(fd, CtlBegin, env)] + during;
            var m := Run(START, loaded);
            var m' := Run(START, loaded + [Client(fd, CtlCommit(Some(curr)), env)]);
            && m'.tx == NO_TX
            && (m'.q.songs == shown.songs <==> AllRestorable(cwd, shown.songs))
            && (AllRestorable(cwd, shown.songs) ==>
                  m'.q.off == if pretty && 0 <= shown.off then shown.off else SwapOffset(m.q, shown.songs, -1))
  {
    LoadRestoresIff(cwd, shown.songs, shown.off, pretty);
    StagedSince(before, fd, env, during);
    var loaded := before + [Client(fd, CtlBegin, env)] + during;
    var curr := Load(Canoniser(cwd), Printed(Listing(shown.songs, shown.off), pretty), NOTHING).curr;
    RunSnoc(START, loaded, Client(fd, CtlCommit(Some(curr)), env));
    CommitDoes(Run(START, loaded), fd, curr, env);
  }
}
