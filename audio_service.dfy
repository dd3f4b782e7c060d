/** The sound mixer of the settings-dialog raycaster
    (src/fragments/f_main/f_menu_bar/f_settings_dialog/f_raycast/audio_service.cpp):
    named one-shot sound effects scaled by a master volume and attenuated by
    distance, and looping music tracks whose player volume couples the
    master and music volumes. */
module Audio {
  import opened Geometry
  import opened Numeric

  /** The range beyond which a positioned sound is inaudible. */
  const AudibleRange: real := 2000.0

  /** The media player's integer volume for a master and a music volume. */
  function PlayerVolume(master: real, music: real): int {
    Trunc(master * music * 100.0)
  }

  /** The music player volume depends on the product of the two volumes only,
      and is 25 for the initial volumes of one half each. */
  lemma PlayerVolumeProperties(master: real, music: real)
    ensures PlayerVolume(master, music) == PlayerVolume(music, master)
    ensures PlayerVolume(0.5, 0.5) == 25
    ensures 0.0 <= master <= 1.0 && 0.0 <= music <= 1.0 ==> 0 <= PlayerVolume(master, music) <= 100
  {
    assert master * music == music * master;
    if 0.0 <= master <= 1.0 && 0.0 <= music <= 1.0 {
      assert 0.0 <= master * music <= master * 1.0;
    }
  }

  /** The distance factor of playSoundAtPos: the distance clipped to
      [0, 2000], mapped linearly from 1 (at the listener) to 0 (at the edge
      of the audible range and beyond). */
  function Attenuation(d: real): (v: real)
    ensures 0.0 <= v <= 1.0
    ensures d <= 0.0 ==> v == 1.0
    ensures d >= AudibleRange ==> v == 0.0
    ensures 0.0 <= d <= AudibleRange ==> v * AudibleRange == AudibleRange - d
  {
    ClipNumberInRange(d, d, Range(0.0, AudibleRange));
    1.0 - ClipNumber(d, Range(0.0, AudibleRange)) / AudibleRange
  }

  /** A farther sound is never louder. */
  lemma AttenuationMonotonic(d1: real, d2: real)
    requires d1 <= d2
    ensures Attenuation(d2) <= Attenuation(d1)
  {
    ClipNumberInRange(d1, d2, Range(0.0, AudibleRange));
  }

  /** A sound effect: its source file, its own volume, the volume last set
      on it and how many times it has been played. */
  datatype SoundEffect = SoundEffect(source: string, volume: real, setVolume: real, plays: nat)

  /** What the media player holds: a playlist, its loop mode, whether it is
      playing and its volume. */
  datatype Player = Player(playlist: seq<string>, looping: bool, playing: bool, volume: int)

  /** A volume scaled by a factor. */
  function Scale(volume: real, factor: real): real {
    volume * factor
  }

  /** A sound effect after being played at volume v. */
  function Played(s: SoundEffect, v: real): SoundEffect {
    s.(setVolume := v, plays := s.plays + 1)
  }

  class AudioService {
    var masterVolume: real
    var musicVolume: real
    var sounds: map<string, SoundEffect>
    var musicTracks: map<string, string>
    var player: Player
    /** SoundEffect::volume's initial value. */
    const soundVolume: real

    /** The music volume starts at one half and the master volume is set to
        one half, which sets the player volume. */
    constructor (initialSoundVolume: real)
      ensures masterVolume == 0.5 && musicVolume == 0.5 && player.volume == 25
      ensures sounds == map[] && musicTracks == map[] && soundVolume == initialSoundVolume
      ensures player.playlist == [] && !player.playing
    {
      soundVolume := initialSoundVolume;
      sounds := map[];
      musicTracks := map[];
      player := Player([], false, false, 0);
      musicVolume := 0.5;
      masterVolume := 0.0;
      new;
      SetMasterVolume(0.5);
      PlayerVolumeProperties(0.5, 0.5);
    }

    /** addSound: std::map::insert, so an existing sound of that name is
        kept. */
    method AddSound(name: string, resourcePath: string)
      modifies this
      ensures name in old(sounds) ==> sounds == old(sounds)
      ensures name !in old(sounds) ==>
        sounds == old(sounds)[name := SoundEffect(resourcePath, soundVolume, 0.0, 0)]
      ensures masterVolume == old(masterVolume) && musicVolume == old(musicVolume)
      ensures musicTracks == old(musicTracks) && player == old(player)
    {
      if name !in sounds {
        sounds := sounds[name := SoundEffect(resourcePath, soundVolume, 0.0, 0)];
      }
    }

    /** addMusicTrack: operator[] assignment, so a track of the same name is
        replaced. */
    method AddMusicTrack(name: string, resourcePath: string)
      modifies this
      ensures musicTracks == old(musicTracks)[name := resourcePath]
      ensures masterVolume == old(masterVolume) && musicVolume == old(musicVolume)
      ensures sounds == old(sounds) && player == old(player)
    {
      musicTracks := musicTracks[name := resourcePath];
    }

    /** playSound: a known sound is played at the master volume times its
        own volume; an unknown name does nothing. */
    method PlaySound(name: string)
      modifies this
      ensures name !in old(sounds) ==> sounds == old(sounds)
      ensures name in old(sounds) ==> sounds == old(sounds)[name :=
        Played(old(sounds)[name], Scale(masterVolume, old(sounds)[name].volume))]
      ensures masterVolume == old(masterVolume) && musicVolume == old(musicVolume)
      ensures musicTracks == old(musicTracks) && player == old(player)
    {
      if name in sounds {
        var s := sounds[name];
        sounds := sounds[name := Played(s, Scale(masterVolume, s.volume))];
      }
    }

    /** playSoundAtPos, with the distance from the player's camera to the
        sound's position as an input: like playSound, further scaled by the
        distance attenuation. */
    method PlaySoundAtPos(name: string, distance: real)
      modifies this
      ensures name !in old(sounds) ==> sounds == old(sounds)
      ensures name in old(sounds) ==> sounds == old(sounds)[name :=
        Played(old(sounds)[name], Scale(Scale(masterVolume, old(sounds)[name].volume), Attenuation(distance)))]
      ensures masterVolume == old(masterVolume) && musicVolume == old(musicVolume)
      ensures musicTracks == old(musicTracks) && player == old(player)
    {
      if name in sounds {
        var s := sounds[name];
        var v := 1.0 - ClipNumber(distance, Range(0.0, AudibleRange)) / AudibleRange;
        sounds := sounds[name := Played(s, Scale(Scale(masterVolume, s.volume), v))];
      }
    }

    /** playMusic: a known track replaces the playlist, which loops and
        plays; an unknown name does nothing. */
    method PlayMusic(name: string)
      modifies this
      ensures name !in musicTracks ==> player == old(player)
      ensures name in musicTracks ==>
        player == old(player).(playlist := [musicTracks[name]], looping := true, playing := true)
      ensures masterVolume == old(masterVolume) && musicVolume == old(musicVolume)
      ensures musicTracks == old(musicTracks) && sounds == old(sounds)
    {
      if name in musicTracks {
        player := player.(playlist := [musicTracks[name]]);
        player := player.(looping := true);
        player := player.(playing := true);
      }
    }

    method StopMusic()
      modifies this
      ensures player == old(player).(playing := false)
      ensures masterVolume == old(masterVolume) && musicVolume == old(musicVolume)
      ensures musicTracks == old(musicTracks) && sounds == old(sounds)
    {
      player := player.(playing := false);
    }

    /** setMusicVolume: store the music volume and push the coupled volume
        to the player. */
    method SetMusicVolume(volume: real)
      modifies this
      ensures musicVolume == volume && masterVolume == old(masterVolume)
      ensures player == old(player).(volume := PlayerVolume(masterVolume, musicVolume))
      ensures musicTracks == old(musicTracks) && sounds == old(sounds)
    {
      musicVolume := volume;
      player := player.(volume := Trunc(masterVolume * musicVolume * 100.0));
    }

    /** setMasterVolume: store the master volume and re-apply the unchanged
        music volume. */
    method SetMasterVolume(volume: real)
      modifies this
      ensures masterVolume == volume && musicVolume == old(musicVolume)
      ensures player == old(player).(volume := PlayerVolume(masterVolume, musicVolume))
      ensures musicTracks == old(musicTracks) && sounds == old(sounds)
    {
      masterVolume := volume;
      SetMusicVolume(musicVolume);
    }
  }

  /** Played at the listener, a positioned sound is as loud as playSound
      makes it; at or beyond the audible range it is silent. */
  lemma PositionedVolume(master: real, volume: real, d: real)
    ensures d <= 0.0 ==> Scale(Scale(master, volume), Attenuation(d)) == Scale(master, volume)
    ensures d >= AudibleRange ==> Scale(Scale(master, volume), Attenuation(d)) == 0.0
    ensures 0.0 <= master && 0.0 <= volume ==>
      0.0 <= Scale(Scale(master, volume), Attenuation(d)) <= Scale(master, volume)
  {
    var a := Attenuation(d);
    if 0.0 <= master && 0.0 <= volume {
      var mv := Scale(master, volume);
      assert 0.0 <= mv by {
        assert 0.0 <= master * volume;
      }
      assert mv * a <= mv * 1.0;
      assert Scale(mv, a) == mv * a && mv * 1.0 == mv && 0.0 <= mv * a;
    }
  }
}
