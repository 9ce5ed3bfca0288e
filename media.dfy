/** The part of an HTML media element the pages touch: its source, mute flag,
    volume, playback position, whether it is shown, and how many times
    playback was requested. `play()` only counts the request: the returned
    promise and the decoding are outside this model. */
module Media {

  class AudioElement {
    var src: string
    var muted: bool
    var volume: real
    var currentTime: real
    var visible: bool
    var playRequests: nat

    constructor (src0: string, muted0: bool)
      ensures src == src0 && muted == muted0 && volume == 1.0 && currentTime == 0.0
      ensures !visible && playRequests == 0
    {
      src, muted, volume, currentTime := src0, muted0, 1.0, 0.0;
      visible, playRequests := false, 0;
    }

    /** Assigning `src`: the element runs its load algorithm again, which
        returns the playback position to 0. */
    method SetSource(url: string)
      modifies this
      ensures src == url && currentTime == 0.0
      ensures muted == old(muted) && volume == old(volume)
      ensures visible == old(visible) && playRequests == old(playRequests)
    {
      src, currentTime := url, 0.0;
    }

    /** `element.play()`: one more playback request, nothing else changes. */
    method Play()
      modifies this
      ensures playRequests == old(playRequests) + 1
      ensures src == old(src) && muted == old(muted) && volume == old(volume)
      ensures currentTime == old(currentTime) && visible == old(visible)
    {
      playRequests := playRequests + 1;
    }
  }
}
