/** struct playlist: a growing array of songs. */
module SongList {
  import opened Common
  import Playlist
  import Shuffle

  class SongList {
    var songs: array<string>
    var len: nat

    ghost predicate Valid()
      reads this
    {
      len <= songs.Length
    }

    ghost function Contents(): (s: seq<string>)
      requires Valid()
      reads this, songs
      ensures |s| == len
    {
      songs[..len]
    }

    constructor ()
      ensures Valid() && Contents() == [] && fresh(songs) && songs.Length == 0
    {
      songs, len := new string[0], 0;
    }

    /** playlist_push: grows to half as much again, and at least to 16. */
    method Push(path: string)
      requires Valid()
      modifies this, songs
      ensures Valid() && Contents() == old(Contents()) + [path]
      ensures if old(len) < old(songs.Length) then songs == old(songs)
              else fresh(songs) && songs.Length == (if old(len) < 11 then 16 else old(len) * 3 / 2)
    {
      if len == songs.Length {
        var cap := if songs.Length * 3 / 2 > 16 then songs.Length * 3 / 2 else 16;
        var wider := new string[cap];
        for i := 0 to len
          invariant songs == old(songs) && len == old(len) && songs[..] == old(songs[..])
          invariant wider[..i] == songs[..i]
        {
          wider[i] := songs[i];
        }
        songs := wider;
      }
      songs[len] := path;
      len := len + 1;
    }

    /** The loop of playlist_dropcurrent: the songs behind i move down by one. */
    method Remove(i: nat)
      requires Valid() && i < len
      modifies this`len, songs
      ensures Valid() && Contents() == old(Contents()[..i] + Contents()[i + 1..])
    {
      ghost var s := songs[..];
      len := len - 1;
      for k := i to len
        invariant Valid() && len == old(len) - 1
        invariant forall j :: 0 <= j < i ==> songs[j] == s[j]
        invariant forall j :: i <= j < k ==> songs[j] == s[j + 1]
        invariant forall j :: k <= j < songs.Length ==> songs[j] == s[j]
      {
        songs[k] := songs[k + 1];
      }
      Shifted(s, songs[..], i, len);
    }

    /** swap */
    method Exchange(a: nat, b: nat)
      requires Valid() && a < len && b < len
      modifies songs
      ensures Contents() == Swap(old(Contents()), a, b)
    {
      var tmp := songs[a];
      songs[a] := songs[b];
      songs[b] := tmp;
    }

    /** The loop of playlist_shuffle: each slot above start is exchanged with one drawn below it. */
    method ShuffleDown(start: nat, draw: nat -> nat)
      requires Valid()
      modifies songs
      ensures Contents() == Shuffle.ShuffleFrom(old(Contents()), start, len - 1, draw)
    {
      var i: int := len - 1;
      ghost var goal := Shuffle.ShuffleFrom(Contents(), start, i, draw);
      while i > start
        invariant i < len
        invariant Shuffle.ShuffleFrom(Contents(), start, i, draw) == goal
      {
        var j := start + Shuffle.Uniform(draw(i), i - start);
        Exchange(i, j);
        i := i - 1;
      }
    }

    /** The search of playlist_swap: the first position of a song, or the length. */
    method Find(song: string) returns (i: nat)
      requires Valid()
      ensures i == Playlist.IndexOf(Contents(), song)
    {
      i := 0;
      while i < len && songs[i] != song
        invariant i <= len
        invariant Playlist.IndexOf(Contents(), song) == i + Playlist.IndexOf(Contents()[i..], song)
      {
        i := i + 1;
      }
    }

    /** The search of playlist_jump. */
    method FindMatch(matches: string -> bool) returns (i: nat)
      requires Valid()
      ensures i == Playlist.First(Contents(), matches)
    {
      i := 0;
      while i < len && !matches(songs[i])
        invariant i <= len
        invariant Playlist.First(Contents(), matches) == i + Playlist.First(Contents()[i..], matches)
      {
        i := i + 1;
      }
    }

    /** playlist_free */
    method Free()
      requires Valid()
      modifies this
      ensures Valid() && Contents() == [] && fresh(songs)
    {
      songs, len := new string[0], 0;
    }
  }

  lemma {:induction false} Shifted<T>(s: seq<T>, t: seq<T>, i: nat, n: nat)
    requires i <= n < |s| == |t|
    requires forall j :: 0 <= j < i ==> t[j] == s[j]
    requires forall j :: i <= j < n ==> t[j] == s[j + 1]
    ensures t[..n] == s[..n + 1][..i] + s[..n + 1][i + 1..]
  {
  }
}
