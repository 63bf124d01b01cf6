/** `VoiceRecorder`: records a voice message, shows its duration while recording, and
    then offers the clip to send or discard. The browser's `MediaRecorder` is not
    modelled: its events (`dataavailable`, `stop`) and the one-second timer are steps
    of their own, and microphone access is a parameter. */
module VoiceRecording {
  import opened Wrappers
  import Text

  const MimeType := "audio/webm;codecs=opus"
  const MicrophoneUnavailable := "Microphone access denied or not available"

  /** A piece of recorded audio, of `size` bytes. */
  datatype Chunk = Chunk(size: nat, data: seq<int>)

  /** The recorded clip: the chunks in the order they arrived. */
  datatype Blob = Blob(chunks: seq<Chunk>, mimeType: string)

  /** `formatDuration`: minutes, ':' and the seconds padded to two digits. */
  function FormatDuration(seconds: nat): string {
    Text.NatToString(seconds / 60) + ":" + Text.PadStart(Text.NatToString(seconds % 60), 2, '0')
  }

  /** The seconds field: exactly two digits that denote the seconds. */
  lemma TwoDigitSeconds(n: nat)
    requires n < 60
    ensures var p := Text.PadStart(Text.NatToString(n), 2, '0');
      && |p| == 2 && Text.IsDigit(p[0]) && Text.IsDigit(p[1]) && Text.DecimalValue(p) == n
  {
    var d := Text.NatToString(n);
    var p := Text.PadStart(d, 2, '0');
    Text.NatToStringValue(n);
    if n < 10 {
      assert d == [Text.DigitChar(n)];
      assert p == ['0'] + d;
      assert p[..1] == ['0'];
      assert Text.DecimalValue(p[..1]) == 0;
    } else {
      assert d == Text.NatToString(n / 10) + [Text.DigitChar(n % 10)];
      assert p == d;
    }
  }

  /** The text is minutes and exactly two digits of seconds, which read back give the
      duration. */
  lemma FormatDurationReadsBack(seconds: nat)
    ensures var s := FormatDuration(seconds);
      var mins := Text.NatToString(seconds / 60);
      && |s| == |mins| + 3 && s[|mins|] == ':'
      && (forall i :: 0 <= i < |s| && i != |mins| ==> Text.IsDigit(s[i]))
      && Text.DecimalValue(s[..|mins|]) * 60 + Text.DecimalValue(s[|mins| + 1..]) == seconds
  {
    var mins := Text.NatToString(seconds / 60);
    var p := Text.PadStart(Text.NatToString(seconds % 60), 2, '0');
    var s := FormatDuration(seconds);
    assert s == mins + ":" + p;
    Text.NatToStringValue(seconds / 60);
    TwoDigitSeconds(seconds % 60);
    assert s[..|mins|] == mins;
    assert s[|mins| + 1..] == p;
  }

  class Recorder {
    var isRecording: bool
    var duration: nat
    var audioBlob: Option<Blob>
    /** Whether `mediaRecorderRef.current` is set. */
    var hasRecorder: bool
    /** `chunksRef.current`. */
    var chunks: seq<Chunk>
    var timerRunning: bool
    /** Whether `stop` was asked of the recorder and its `stop` event is still due. */
    var stopPending: bool
    /** Whether the recording in progress was cancelled. */
    var discard: bool
    var sent: seq<Blob>
    var alerts: seq<string>
    var cancels: nat

    /** The timer runs exactly while recording, and only non-empty chunks are kept. */
    predicate Valid()
      reads this
    {
      && (isRecording ==> hasRecorder && !stopPending)
      && timerRunning == isRecording
      && (forall i :: 0 <= i < |chunks| ==> chunks[i].size > 0)
      && (audioBlob.Some? ==> forall i :: 0 <= i < |audioBlob.value.chunks| ==> audioBlob.value.chunks[i].size > 0)
    }

    constructor ()
      ensures Valid() && !isRecording && duration == 0 && audioBlob.None? && !hasRecorder
      ensures chunks == [] && !timerRunning && !stopPending && !discard
      ensures sent == [] && alerts == [] && cancels == 0
    {
      isRecording, duration, audioBlob, hasRecorder := false, 0, None, false;
      chunks, timerRunning, stopPending, discard := [], false, false, false;
      sent, alerts, cancels := [], [], 0;
    }

    /** `startRecording`, offered while neither recording nor holding a clip. Without the
        microphone only an alert. */
    method Start(granted: bool)
      requires Valid() && !isRecording && audioBlob.None?
      modifies this`alerts, this`hasRecorder, this`chunks, this`stopPending, this`discard
      modifies this`isRecording, this`duration, this`timerRunning
      ensures Valid()
      ensures !granted ==> alerts == old(alerts) + [MicrophoneUnavailable] && !isRecording && chunks == old(chunks)
      ensures granted ==> isRecording && duration == 0 && chunks == [] && timerRunning && alerts == old(alerts)
      ensures granted ==> !stopPending && !discard
      ensures audioBlob.None? && sent == old(sent)
    {
      if !granted {
        alerts := alerts + [MicrophoneUnavailable];
        return;
      }
      hasRecorder := true;
      chunks := [];
      stopPending := false;
      discard := false;
      isRecording := true;
      duration := 0;
      timerRunning := true;
    }

    /** `dataavailable`: a chunk with data is kept, an empty one dropped. */
    method DataAvailable(c: Chunk)
      requires Valid()
      modifies this`chunks
      ensures Valid()
      ensures chunks == if c.size > 0 then old(chunks) + [c] else old(chunks)
    {
      if c.size > 0 {
        chunks := chunks + [c];
      }
    }

    /** The one-second timer adds one second. */
    method Tick()
      requires Valid() && timerRunning
      modifies this`duration
      ensures Valid() && duration == old(duration) + 1
    {
      duration := duration + 1;
    }

    /** `stopRecording`: only with a recorder that is recording; the recorder's `stop`
        event follows. */
    method Stop()
      requires Valid()
      modifies this`isRecording, this`timerRunning, this`stopPending
      ensures Valid()
      ensures old(hasRecorder && isRecording) ==> !isRecording && !timerRunning && stopPending
      ensures !old(hasRecorder && isRecording) ==>
        isRecording == old(isRecording) && timerRunning == old(timerRunning) && stopPending == old(stopPending)
    {
      if hasRecorder && isRecording {
        stopPending := true;
        isRecording := false;
        timerRunning := false;
      }
    }

    /** `cancelRecording`: stops a recording in progress, then drops the clip and the
        duration. */
    method Cancel()
      requires Valid()
      modifies this`discard, this`isRecording, this`timerRunning, this`stopPending
      modifies this`audioBlob, this`duration, this`cancels
      ensures Valid() && !isRecording && audioBlob.None? && duration == 0
      ensures cancels == old(cancels) + 1 && sent == old(sent) && chunks == old(chunks)
      ensures discard == (old(isRecording) || old(discard))
      ensures stopPending == (old(isRecording) || old(stopPending))
    {
      if isRecording {
        discard := true;
        Stop();
      }
      audioBlob := None;
      duration := 0;
      cancels := cancels + 1;
    }

    /** The recorder's `stop` event as the component handles it: the clip is built from
        the chunks, whether or not the recording was cancelled meanwhile. */
    method StoppedAsWritten()
      requires Valid() && stopPending
      modifies this`audioBlob, this`stopPending
      ensures Valid() && !stopPending
      ensures audioBlob == Some(Blob(chunks, MimeType))
    {
      audioBlob := Some(Blob(chunks, MimeType));
      stopPending := false;
    }

    /** The `stop` event with a cancelled recording's clip dropped. */
    method Stopped()
      requires Valid() && stopPending
      modifies this`audioBlob, this`stopPending, this`discard
      ensures Valid() && !stopPending && !discard
      ensures audioBlob == if old(discard) then old(audioBlob) else Some(Blob(chunks, MimeType))
    {
      if !discard {
        audioBlob := Some(Blob(chunks, MimeType));
      }
      discard := false;
      stopPending := false;
    }

    /** `sendRecording`: hands over the clip, if there is one, and clears it. */
    method Send()
      requires Valid()
      modifies this`sent, this`audioBlob, this`duration
      ensures Valid() && audioBlob.None?
      ensures old(audioBlob).Some? ==> sent == old(sent) + [old(audioBlob).value] && duration == 0
      ensures old(audioBlob).None? ==> sent == old(sent) && duration == old(duration)
    {
      if audioBlob.Some? {
        sent := sent + [audioBlob.value];
        audioBlob := None;
        duration := 0;
      }
    }
  }

  /** Cancelling a recording as the component is written: the `stop` event arrives after
      the clip was cleared and brings it back, with its send button. */
  method CancelledClipComesBack() returns (r: Recorder)
    ensures r.audioBlob.Some? && r.cancels == 1
  {
    r := new Recorder();
    r.Start(true);
    r.Cancel();
    r.StoppedAsWritten();
  }

  /** With the cancelled clip dropped, nothing is left to send. */
  method CancelledClipStaysGone() returns (r: Recorder)
    ensures r.audioBlob.None? && r.cancels == 1
  {
    r := new Recorder();
    r.Start(true);
    r.Cancel();
    r.Stopped();
  }

  /** A recording of non-empty and empty chunks sends exactly the non-empty ones. */
  method RecordAndSend(a: Chunk, b: Chunk) returns (r: Recorder)
    requires a.size > 0 && b.size == 0
    ensures r.sent == [Blob([a], MimeType)] && r.duration == 0
  {
    r := new Recorder();
    r.Start(true);
    r.Tick();
    r.DataAvailable(a);
    r.DataAvailable(b);
    assert r.chunks == [a];
    r.Stop();
    assert r.stopPending && !r.discard;
    r.Stopped();
    assert r.audioBlob == Some(Blob([a], MimeType));
    r.Send();
  }
}
