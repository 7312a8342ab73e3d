/** playlist.c with its variables: the list, the position in it and what is current. */
module Deck {
  import opened Common
  import opened Playlist
  import opened SongList
  import Shuffle

  class Deck {
    const list: SongList
    var off: int               // play_off
    var current: Option<string> // current_song
    var state: PlayState
    var repeatOne: bool
    var repeatAll: bool
    var consume: bool

    ghost predicate Valid()
      reads this, list
    {
      list.Valid() && -1 <= off < list.len
    }

    ghost function Q(): (q: Queue)
      requires list.Valid()
      reads this, list, list.songs
    {
      Queue(list.Contents(), off, current, state, repeatOne, repeatAll, consume)
    }

    constructor ()
      ensures Valid() && fresh(list) && fresh(list.songs)
      ensures Q() == Queue([], -1, None, Stopped, false, true, false)
    {
      list := new SongList();
      off, current, state, repeatOne, repeatAll, consume := -1, None, Stopped, false, true, false;
    }

    /** setsong */
    method SetSong(i: int)
      requires Valid() && -1 <= i < list.len
      modifies this`current
      ensures Q() == old(Q()).(current := if i == -1 then None else Some(old(Q()).songs[i]))
    {
      current := if i == -1 then None else Some(list.songs[i]);
    }

    method Advance() returns (song: Option<string>)
      requires Valid()
      modifies this
      ensures Valid() && (Q(), song) == Playlist.Advance(old(Q()))
    {
      if list.len == 0 {
        state := Stopped;
        return None;
      }
      off := off + 1;
      if off == list.len {
        if repeatAll {
          off := 0;
        } else {
          state, off := Stopped, -1;
          SetSong(off);
          return None;
        }
      }
      SetSong(off);
      state := Playing;
      return Some(list.songs[off]);
    }

    method Previous() returns (song: Option<string>)
      requires Valid()
      modifies this
      ensures Valid() && (Q(), song) == Playlist.Previous(old(Q()))
    {
      if list.len == 0 {
        state := Stopped;
        return None;
      }
      off := off - 1;
      if off < 0 {
        if repeatAll {
          off := list.len - 1;
        } else {
          state, off := Stopped, -1;
          SetSong(off);
          return None;
        }
      }
      SetSong(off);
      state := Playing;
      return Some(list.songs[off]);
    }

    method DropCurrent()
      requires Valid()
      modifies this, list`len, list.songs
      ensures Valid() && Q() == Playlist.DropCurrent(old(Q()))
    {
      if off == -1 || list.len == 0 { return; }
      SetSong(-1);
      list.Remove(off);
      off := off - 1;
    }

    method Truncate()
      requires Valid()
      modifies this, list
      ensures Valid() && Q() == Playlist.Truncate(old(Q())) && fresh(list.songs)
    {
      list.Free();
      off := -1;
    }

    /** The first half of playlist_swap: where the position goes in p. */
    method Target(p: SongList, at: int) returns (i: int)
      requires Valid() && p.Valid()
      ensures i == SwapOffset(Q(), p.Contents(), at)
    {
      if 0 <= at < p.len { return at; }
      if current.None? { return -1; }
      i := p.Find(current.value);
      if i == p.len { i := -1; }
    }

    /** playlist_swap: the array of p changes hands. */
    method Swap(p: SongList, at: int)
      requires Valid() && p.Valid() && p != list
      modifies this, list
      ensures Valid() && Q() == SwapIn(old(Q()), old(p.Contents()), at)
      ensures list.songs == p.songs
    {
      var i := Target(p, at);
      Truncate();
      if i != -1 { off := i; }
      list.len, list.songs := p.len, p.songs;
      if state == Stopped { SetSong(off); }
    }

    method Jump(matches: string -> bool) returns (song: Option<string>)
      requires Valid()
      modifies this
      ensures Valid() && (Q(), song) == Playlist.Jump(old(Q()), matches)
    {
      var i := list.FindMatch(matches);
      if i == list.len { return None; }
      state, off := Playing, i;
      SetSong(off);
      return Some(list.songs[i]);
    }

    method ShuffleSongs(all: bool, draw: nat -> nat)
      requires Valid()
      modifies this`off, list.songs
      ensures Valid()
      ensures var r := Shuffle.ShuffleAll(old(Q()).songs, old(off), all, draw);
              Q() == old(Q()).(songs := r.0, off := r.1)
    {
      if list.len == 0 { return; }
      var start: nat := if off >= 0 && !all then off else 0;
      if off >= 0 {
        list.Exchange(off, start);
        off := start;
        start := start + 1;
      }
      list.ShuffleDown(start, draw);
    }
  }
}
