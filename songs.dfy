/**
 * The audio player's playlist (components/AudioPlayer/songs.ts): five demo
 * songs numbered 1 to 5, each with a title, a zero-padded track number and the
 * URL of its sample file.
 */
module Songs {
  import opened Strings

  datatype Song = Song(title: string, trackNumber: string, src: string)

  const SongCount := 5
  const TitlePrefix := "Song Number "
  const SrcPrefix := "https://www.soundhelix.com/examples/mp3/SoundHelix-Song-"
  const SrcSuffix := ".mp3"

  /** `k < 10 ? "0" + k : k.toString()`: two digits at least, reading back as `k`. */
  function TrackNumber(k: nat): (r: string)
    ensures AllDigits(r) && ParseDecimal(r) == k
    ensures k < 10 ==> |r| == 2 && r[0] == '0'
    ensures k >= 10 ==> r == NatToString(k)
    ensures |r| >= 2
  {
    if k < 10 then
      ParseLeadingZero(NatToString(k));
      "0" + NatToString(k)
    else NatToString(k)
  }

  /** The song numbered `k`. */
  function SongFor(k: nat): Song
  {
    Song(TitlePrefix + NatToString(k), TrackNumber(k), SrcPrefix + NatToString(k) + SrcSuffix)
  }

  /** `[...Array(5).keys()].map(n => ...)`: song `n + 1` at index `n`. */
  function Songs(): (songs: seq<Song>)
    ensures |songs| == SongCount
  {
    seq(SongCount, n requires 0 <= n < SongCount => SongFor(n + 1))
  }

  /**
   * The plain decimal numeral of a song's number (digits only, no leading zero)
   * sits after the title's prefix and between the fixed parts of its URL.
   */
  lemma SongForNumbered(k: nat)
    ensures var s := SongFor(k);
      && StartsWith(s.title, TitlePrefix)
      && s.title[|TitlePrefix|..] == NatToString(k)
      && ParseDecimal(s.title[|TitlePrefix|..]) == k
      && StartsWith(s.src, SrcPrefix) && EndsWith(s.src, SrcSuffix)
      && s.src[|SrcPrefix|..|s.src| - |SrcSuffix|] == NatToString(k)
      && ParseDecimal(s.src[|SrcPrefix|..|s.src| - |SrcSuffix|]) == k
  {
    var digits := NatToString(k);
    var s := SongFor(k);
    assert s.title[..|TitlePrefix|] == TitlePrefix;
    assert s.title[|TitlePrefix|..] == digits;
    assert s.src[..|SrcPrefix|] == SrcPrefix;
    assert s.src[|s.src| - |SrcSuffix|..] == SrcSuffix;
    assert s.src[|SrcPrefix|..|s.src| - |SrcSuffix|] == digits;
  }

  /**
   * Every song carries its own number, 1 to 5 in list order, in each field: after
   * the title's prefix, as the two-digit track number, and in the file name.
   */
  lemma SongsNumbered(i: nat)
    requires i < |Songs()|
    ensures var s := Songs()[i];
      && StartsWith(s.title, TitlePrefix)
      && s.title[|TitlePrefix|..] == NatToString(i + 1)
      && |NatToString(i + 1)| == 1 && ParseDecimal(NatToString(i + 1)) == i + 1
      && |s.trackNumber| == 2 && s.trackNumber[0] == '0'
      && AllDigits(s.trackNumber) && ParseDecimal(s.trackNumber) == i + 1
      && StartsWith(s.src, SrcPrefix) && EndsWith(s.src, SrcSuffix)
      && s.src[|SrcPrefix|..|s.src| - |SrcSuffix|] == NatToString(i + 1)
  {
    assert Songs()[i] == SongFor(i + 1);
    SongForNumbered(i + 1);
  }

  /** The first song, written out. */
  lemma FirstSong()
    ensures Songs()[0] == Song("Song Number 1", "01", "https://www.soundhelix.com/examples/mp3/SoundHelix-Song-1.mp3")
  {
  }

  /** From the tenth song on there would be no padding: `k.toString()` as it stands. */
  lemma TenthTrackUnpadded()
    ensures TrackNumber(10) == "10"
  {
    assert NatToString(1) == "1" && NatToString(0) == "0";
  }
}
