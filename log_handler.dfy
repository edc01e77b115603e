/**
 * `DebugPanelLogHandler`: the log handler behind the debug panel's "Open logs" view. Every
 * message becomes one line "<date> <LVL> 𝌀 <message>[ <metadata>]" in a buffer that keeps
 * the newest lines. The current date's description is a parameter, `now`; a metadata
 * dictionary is its entries in iteration order, each value by its description.
 */
module DebugLogs {
  import opened Wrappers
  import opened Strings

  /** `Logger.Level`, whose raw values are the lowercase names. */
  datatype Level = Trace | Debug | Info | Notice | Warning | Error | Critical

  function RawValue(level: Level): string
  {
    match level
    case Trace => "trace"
    case Debug => "debug"
    case Info => "info"
    case Notice => "notice"
    case Warning => "warning"
    case Error => "error"
    case Critical => "critical"
  }

  /** The width a level is cut to. */
  const LevelWidth := 3

  /** The level as the line shows it: the raw value uppercased, cut to its first three characters. */
  function LevelLabel(level: Level): (r: string)
    ensures |r| == LevelWidth
    ensures r == AsciiUppercased(RawValue(level))[..LevelWidth]
  {
    var levelString := AsciiUppercased(RawValue(level));
    if |levelString| > LevelWidth then levelString[..LevelWidth] else levelString
  }

  /** The labels, level by level. */
  lemma LevelLabels()
    ensures LevelLabel(Trace) == "TRA" && LevelLabel(Debug) == "DEB" && LevelLabel(Info) == "INF"
    ensures LevelLabel(Notice) == "NOT" && LevelLabel(Warning) == "WAR" && LevelLabel(Error) == "ERR"
    ensures LevelLabel(Critical) == "CRI"
  {
    assert AsciiUppercased("trace")[..3] == "TRA";
    assert AsciiUppercased("debug")[..3] == "DEB";
    assert AsciiUppercased("info")[..3] == "INF";
    assert AsciiUppercased("notice")[..3] == "NOT";
    assert AsciiUppercased("warning")[..3] == "WAR";
    assert AsciiUppercased("error")[..3] == "ERR";
    assert AsciiUppercased("critical")[..3] == "CRI";
  }

  /** No two levels share a label, so the label tells the level. */
  lemma LevelLabelsDistinct(a: Level, b: Level)
    ensures LevelLabel(a) == LevelLabel(b) <==> a == b
  {
    LevelLabels();
  }

  // ---------------------------------------------------------------- metadata

  /** `"\(key)=\(value)"`. */
  function Entry(entry: (string, string)): string
  {
    entry.0 + "=" + entry.1
  }

  /** `joined(separator:)`. */
  function Joined(parts: seq<string>, separator: string): (r: string)
    ensures parts == [] ==> r == []
    ensures |parts| == 1 ==> r == parts[0]
  {
    if parts == [] then []
    else if |parts| == 1 then parts[0]
    else parts[0] + separator + Joined(parts[1..], separator)
  }

  lemma {:induction false} JoinedConcat(a: seq<string>, b: seq<string>, separator: string)
    requires a != [] && b != []
    ensures Joined(a + b, separator) == Joined(a, separator) + separator + Joined(b, separator)
  {
    if |a| == 1 {
      assert (a + b)[0] == a[0] && (a + b)[1..] == b;
    } else {
      assert (a + b)[0] == a[0] && (a + b)[1..] == a[1..] + b;
      JoinedConcat(a[1..], b, separator);
    }
  }

  function Entries(metadata: seq<(string, string)>): (r: seq<string>)
    ensures |r| == |metadata|
    ensures forall i :: 0 <= i < |r| ==> r[i] == Entry(metadata[i])
  {
    seq(|metadata|, i requires 0 <= i < |metadata| => Entry(metadata[i]))
  }

  /** `prettify(_:)`: nil for no metadata, otherwise the "key=value" entries joined by single spaces. */
  function Prettify(metadata: seq<(string, string)>): (r: Option<string>)
    ensures r.None? <==> metadata == []
    ensures |metadata| == 1 ==> r == Some(Entry(metadata[0]))
  {
    if metadata == [] then None else Some(Joined(Entries(metadata), " "))
  }

  /** The metadata of two dictionaries' worth of entries is the two prettified strings with one space between. */
  lemma PrettifyConcat(a: seq<(string, string)>, b: seq<(string, string)>)
    requires a != [] && b != []
    ensures Prettify(a + b) == Some(Prettify(a).value + " " + Prettify(b).value)
  {
    assert Entries(a + b) == Entries(a) + Entries(b);
    JoinedConcat(Entries(a), Entries(b), " ");
  }

  // ---------------------------------------------------------------- lines

  /** The glyph between the level and the message. */
  const Separator := " \U{1D300} "

  /** The line for one message: date, level, glyph, message, and " " plus the metadata when there is any. */
  function Line(now: string, level: Level, message: string, metadata: seq<(string, string)>): (r: string)
    ensures var head := now + " " + LevelLabel(level) + Separator + message;
      |r| >= |head| && r[..|head|] == head
      && (metadata == [] <==> r == head)
      && (metadata != [] ==> r == head + " " + Prettify(metadata).value)
  {
    var metadataString := Prettify(metadata);
    now + " " + LevelLabel(level) + Separator + message
      + (if metadataString.None? then "" else " " + metadataString.value)
  }

  /** The most lines the buffer keeps. */
  const MaxLines := 1001

  /** The newest `n` lines of `history`, or all of them when there are fewer. */
  function Newest(history: seq<string>, n: nat): (r: seq<string>)
    ensures |r| == if |history| < n then |history| else n
    ensures r == history[|history| - |r|..]
  {
    if |history| < n then history else history[|history| - n..]
  }

  class DebugPanelLogHandler {
    /** `logLines`, a static shared by every handler; here the field of the one handler that writes it. */
    var logLines: seq<string>
    var metadata: map<string, string>
    var logLevel: Level

    constructor ()
      ensures logLines == [] && metadata == map[] && logLevel == Trace
    {
      logLines := [];
      metadata := map[];
      logLevel := Trace;
    }

    /**
     * `log(level:message:metadata:...)`: the oldest line goes when more than 1000 are kept,
     * then the new line is appended. The handler's own `metadata` does not enter the line;
     * `logLevel` is the logger's to check, not the handler's.
     */
    method Log(level: Level, message: string, metadata: Option<seq<(string, string)>>, now: string)
      modifies this
      ensures |old(logLines)| > MaxLines - 1 ==> logLines == old(logLines)[1..] + [Line(now, level, message, metadata.GetOr([]))]
      ensures |old(logLines)| <= MaxLines - 1 ==> logLines == old(logLines) + [Line(now, level, message, metadata.GetOr([]))]
      ensures this.metadata == old(this.metadata) && logLevel == old(logLevel)
    {
      var metadataString := Prettify(metadata.GetOr([]));
      var levelString := AsciiUppercased(RawValue(level));
      if |levelString| > LevelWidth {
        levelString := levelString[..LevelWidth];
      }
      var line := now + " " + levelString + Separator + message
        + (if metadataString.None? then "" else " " + metadataString.value);
      if |logLines| > MaxLines - 1 {
        logLines := logLines[1..];
      }
      logLines := logLines + [line];
    }

    /** `handler[metadataKey:]`, read. */
    function MetadataValue(metadataKey: string): (r: Option<string>)
      reads this
      ensures r.Some? <==> metadataKey in metadata
      ensures r.Some? ==> r.value == metadata[metadataKey]
    {
      if metadataKey in metadata then Some(metadata[metadataKey]) else None
    }

    /** `handler[metadataKey:] = newValue`: nil removes the key. */
    method SetMetadataValue(metadataKey: string, newValue: Option<string>)
      modifies this
      ensures MetadataValue(metadataKey) == newValue
      ensures forall k :: k != metadataKey ==> MetadataValue(k) == old(MetadataValue(k))
      ensures logLines == old(logLines) && logLevel == old(logLevel)
    {
      match newValue
      case Some(v) => metadata := metadata[metadataKey := v];
      case None => metadata := metadata - {metadataKey};
    }
  }

  /** Logging one more line keeps the buffer the newest 1001 lines of everything logged. */
  lemma LogKeepsNewest(history: seq<string>, lines: seq<string>, line: string)
    requires lines == Newest(history, MaxLines)
    ensures var after := if |lines| > MaxLines - 1 then lines[1..] + [line] else lines + [line];
      after == Newest(history + [line], MaxLines) && |after| <= MaxLines && after[|after| - 1] == line
  {
    var h := history + [line];
    if |lines| > MaxLines - 1 {
      assert h[|h| - MaxLines..] == history[|history| - MaxLines + 1..] + [line];
    } else {
      assert h == history + [line];
    }
  }

  /** The lines of `messages`, logged at one level, without metadata, at the same date. */
  function LinesOf(messages: seq<string>, level: Level, now: string): (r: seq<string>)
    ensures |r| == |messages|
    ensures forall i :: 0 <= i < |r| ==> r[i] == Line(now, level, messages[i], [])
  {
    seq(|messages|, i requires 0 <= i < |messages| => Line(now, level, messages[i], []))
  }

  lemma LinesOfSnoc(messages: seq<string>, level: Level, now: string, i: nat)
    requires i < |messages|
    ensures LinesOf(messages[..i + 1], level, now) == LinesOf(messages[..i], level, now) + [Line(now, level, messages[i], [])]
  {
  }

  /** A handler that has logged `messages` keeps exactly the lines of the newest 1001 of them. */
  method LogAll(messages: seq<string>, level: Level, now: string) returns (lines: seq<string>)
    ensures lines == Newest(LinesOf(messages, level, now), MaxLines)
  {
    var handler := new DebugPanelLogHandler();
    for i := 0 to |messages|
      invariant handler.logLines == Newest(LinesOf(messages[..i], level, now), MaxLines)
    {
      LogKeepsNewest(LinesOf(messages[..i], level, now), handler.logLines, Line(now, level, messages[i], []));
      LinesOfSnoc(messages, level, now, i);
      handler.Log(level, messages[i], None, now);
    }
    assert messages[..|messages|] == messages;
    lines := handler.logLines;
  }
}
