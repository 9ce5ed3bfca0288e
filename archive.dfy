/** The archive page: the catalog, narrowed to one mix when the page's `mix`
    query parameter names one, and a player for the chosen track. */
module Archive {
  import opened Wrappers
  import opened JsText
  import opened JsNumber
  import opened Media
  import opened Catalog

  /** `data.filter(song => String(song.id) === String(mixId))`. */
  function FilterById(songs: seq<Song>, mix: string): (r: seq<Song>)
    ensures |r| <= |songs|
    ensures forall s <- r :: s in songs && IdString(s.id) == mix
    ensures forall s <- songs :: IdString(s.id) == mix ==> s in r
  {
    if songs == [] then []
    else (if IdString(songs[0].id) == mix then [songs[0]] else []) + FilterById(songs[1..], mix)
  }

  /** The filter keeps the catalog's order: filtering two parts and joining
      them is filtering the whole. */
  lemma {:induction false} FilterByIdConcat(a: seq<Song>, b: seq<Song>, mix: string)
    ensures FilterById(a + b, mix) == FilterById(a, mix) + FilterById(b, mix)
  {
    if a == [] {
      assert a + b == b;
    } else {
      assert (a + b)[0] == a[0];
      assert (a + b)[1..] == a[1..] + b;
      FilterByIdConcat(a[1..], b, mix);
      var head := if IdString(a[0].id) == mix then [a[0]] else [];
      ConcatAssoc(head, FilterById(a[1..], mix), FilterById(b, mix));
    }
  }

  /** Filtering twice is filtering once. */
  lemma {:induction false} FilterByIdIdempotent(songs: seq<Song>, mix: string)
    ensures FilterById(FilterById(songs, mix), mix) == FilterById(songs, mix)
  {
    if songs != [] {
      var head := if IdString(songs[0].id) == mix then [songs[0]] else [];
      FilterByIdConcat(head, FilterById(songs[1..], mix), mix);
      FilterByIdIdempotent(songs[1..], mix);
      if head != [] {
        assert head[1..] == [];
      }
    }
  }

  /** A song with a numeric id is selected by that number's decimal text,
      for every id a double holds exactly. */
  lemma NumericIdSelected(songs: seq<Song>, n: int)
    requires IsSafeInteger(n)
    ensures forall s <- songs :: s.id == NumberId(n) ==> s in FilterById(songs, IntToString(n))
  {
  }

  /** The tracks shown: with a non-empty `mix` parameter only the songs whose
      id reads as it, otherwise the whole catalog. */
  function SelectTracks(songs: seq<Song>, mix: Option<string>): (r: seq<Song>)
    ensures mix.None? || mix.value == [] ==> r == songs
    ensures mix.Some? && mix.value != [] ==> r == FilterById(songs, mix.value)
  {
    if mix.Some? && mix.value != [] then FilterById(songs, mix.value) else songs
  }

  /** The fetch settling: a failure to fetch or parse leaves no tracks. */
  function LoadTracks(data: Option<seq<Song>>, mix: Option<string>): (r: seq<Song>)
    ensures data.None? ==> r == []
    ensures data.Some? ==> r == SelectTracks(data.value, mix)
  {
    if data.Some? then SelectTracks(data.value, mix) else []
  }

  /** The page's chosen track and its audio element. */
  class ArchivePage {
    var tracks: seq<Song>
    var currentTrack: Option<Song>
    const audio: AudioElement

    constructor(audio0: AudioElement)
      ensures audio == audio0 && tracks == [] && currentTrack == None
    {
      audio := audio0;
      tracks := [];
      currentTrack := None;
    }

    /** The fetch effect's outcome stored as the page's tracks. */
    method Load(data: Option<seq<Song>>, mix: Option<string>)
      modifies this
      ensures tracks == LoadTracks(data, mix) && currentTrack == old(currentTrack)
    {
      tracks := LoadTracks(data, mix);
    }

    /** `playTrack`: the track becomes current, and the element is pointed at
        it, shown and started. */
    method PlayTrack(track: Song, publicUrl: string)
      modifies this, audio
      ensures currentTrack == Some(track) && tracks == old(tracks)
      ensures audio.src == publicUrl + "/" + track.link
      ensures audio.visible && audio.playRequests == old(audio.playRequests) + 1
      ensures audio.muted == old(audio.muted) && audio.volume == old(audio.volume)
      ensures audio.currentTime == 0.0
    {
      currentTrack := Some(track);
      audio.SetSource(publicUrl + "/" + track.link);
      audio.visible := true;
      audio.Play();
    }
  }
}
