/** The `TYPE:DEVICE` command line arguments that select the audio and the
    video capture source. */
module DeviceSpec {

  /** A parsed source: the capture back-end type and the device name. */
  datatype Device = Device(kind: string, name: string)

  /** The value a parser hands to the argument parser, or the message of
      the `ArgumentTypeError` it raises. */
  datatype Result<T> = Ok(value: T) | Err(message: string)

  const Separator: char := ':'
  const AudioFormatError := "Audio source should be in the form TYPE:DEVICE"
  const VideoFormatError := "Video source should be in the form TYPE:DEVICE"

  /** Python's `s.split(sep, 1)`: the whole string when `sep` is absent,
      otherwise the text before the first `sep` and everything after it. */
  function SplitOnce(s: string, sep: char): (parts: seq<string>)
    ensures sep !in s ==> parts == [s]
    ensures sep in s ==> |parts| == 2 && sep !in parts[0] && parts[0] + [sep] + parts[1] == s
  {
    if s == [] then [s]
    else if s[0] == sep then ["", s[1..]]
    else
      var tail := SplitOnce(s[1..], sep);
      assert s == [s[0]] + s[1..];
      [[s[0]] + tail[0]] + tail[1..]
  }

  /** The text before the first separator is determined by the string. */
  lemma {:induction false} FirstSeparatorUnique(a: string, b: string, a': string, b': string, sep: char)
    requires sep !in a && sep !in a'
    requires a + [sep] + b == a' + [sep] + b'
    ensures a == a' && b == b'
  {
    var s := a + [sep] + b;
    assert s[|a|] == sep && s[|a'|] == sep;
    assert forall k :: 0 <= k < |a| ==> s[k] == a[k] != sep;
    assert forall k :: 0 <= k < |a'| ==> s[k] == a'[k] != sep;
    assert |a| == |a'|;
    assert a == s[..|a|] == a';
    assert b == s[|a| + 1..] == b';
  }

  /** `parse_audio_device` */
  function ParseAudioDevice(s: string): (r: Result<Device>)
    ensures r.Ok? <==> Separator in s
    ensures r.Ok? ==> r.value.kind + [Separator] + r.value.name == s && Separator !in r.value.kind
    ensures r.Err? ==> r.message == AudioFormatError
  {
    var parts := SplitOnce(s, Separator);
    if |parts| != 2 then Err(AudioFormatError) else Ok(Device(parts[0], parts[1]))
  }

  /** `parse_video_device` */
  function ParseVideoDevice(s: string): (r: Result<Device>)
    ensures r.Ok? <==> Separator in s
    ensures r.Ok? ==> r.value.kind + [Separator] + r.value.name == s && Separator !in r.value.kind
    ensures r.Err? ==> r.message == VideoFormatError
  {
    var parts := SplitOnce(s, Separator);
    if |parts| != 2 then Err(VideoFormatError) else Ok(Device(parts[0], parts[1]))
  }

  /** Formatting a device as `TYPE:DEVICE` and parsing it back gives the
      device, whenever the type has no colon; the device name may. */
  lemma AudioRoundTrip(d: Device)
    requires Separator !in d.kind
    ensures ParseAudioDevice(d.kind + [Separator] + d.name) == Ok(d)
  {
    var r := ParseAudioDevice(d.kind + [Separator] + d.name);
    assert Separator in d.kind + [Separator] + d.name by {
      assert (d.kind + [Separator] + d.name)[|d.kind|] == Separator;
    }
    FirstSeparatorUnique(r.value.kind, r.value.name, d.kind, d.name, Separator);
  }

  lemma VideoRoundTrip(d: Device)
    requires Separator !in d.kind
    ensures ParseVideoDevice(d.kind + [Separator] + d.name) == Ok(d)
  {
    var r := ParseVideoDevice(d.kind + [Separator] + d.name);
    assert Separator in d.kind + [Separator] + d.name by {
      assert (d.kind + [Separator] + d.name)[|d.kind|] == Separator;
    }
    FirstSeparatorUnique(r.value.kind, r.value.name, d.kind, d.name, Separator);
  }

  /** Empty parts are accepted and the split is at the first colon only. */
  lemma ParseAcceptsEmptyParts()
    ensures ParseAudioDevice(":x") == Ok(Device("", "x"))
    ensures ParseAudioDevice("alsa:") == Ok(Device("alsa", ""))
  {
    AudioRoundTrip(Device("", "x"));
    assert "" + [Separator] + "x" == ":x";
    AudioRoundTrip(Device("alsa", ""));
    assert "alsa" + [Separator] + "" == "alsa:";
  }

  lemma ParseSplitsAtFirstColon()
    ensures ParseAudioDevice("alsa:hw:1") == Ok(Device("alsa", "hw:1"))
  {
    AudioRoundTrip(Device("alsa", "hw:1"));
    assert "alsa" + [Separator] + "hw:1" == "alsa:hw:1";
  }

  /** An argument without a colon is refused. */
  lemma ParseRefusesMissingColon()
    ensures ParseAudioDevice("default") == Err(AudioFormatError)
    ensures ParseVideoDevice("") == Err(VideoFormatError)
  {
  }
}
