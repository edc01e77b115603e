/**
 * The debug panel: rows of key and value shown in registration order below the bundle
 * identifier, buttons below the rows, and the rules by which a row's value is displayed.
 * A row's value is a provider that reports an optional string; rows compare by key only.
 * The view controllers, layout and pasteboard are not modelled.
 */
module DebugPanels {
  import opened Wrappers

  /** A row: its key and the provider of its value. Two rows are the same row when their keys are. */
  datatype DebugRow = DebugRow(key: string, value: () -> Option<string>)

  /** A button: its title; what tapping it does is the caller's closure and is not modelled. */
  datatype DebugRowButton = DebugRowButton(title: string)

  /** No two rows share a key. */
  ghost predicate UniqueKeys(rows: seq<DebugRow>)
  {
    forall i, j :: 0 <= i < j < |rows| ==> rows[i].key != rows[j].key
  }

  ghost function Keys(rows: seq<DebugRow>): set<string>
  {
    set i | 0 <= i < |rows| :: rows[i].key
  }

  /** `rows.firstIndex(where: { $0 == row })`: the first index whose row has `key`, if any. */
  function FirstIndex(rows: seq<DebugRow>, key: string): (r: Option<nat>)
    ensures r.None? <==> forall i :: 0 <= i < |rows| ==> rows[i].key != key
    ensures r.Some? ==> r.value < |rows| && rows[r.value].key == key
                        && forall i :: 0 <= i < r.value ==> rows[i].key != key
  {
    if rows == [] then None
    else if rows[0].key == key then Some(0)
    else
      var r := FirstIndex(rows[1..], key);
      assert forall i :: 1 <= i < |rows| ==> rows[i] == rows[1..][i - 1];
      if r.Some? then Some(r.value + 1) else None
  }

  /** The rows after `add(key:value:)`: the row with the same key replaced in place, or the new row appended. */
  ghost function Upserted(rows: seq<DebugRow>, row: DebugRow): seq<DebugRow>
  {
    match FirstIndex(rows, row.key)
    case Some(index) => rows[index := row]
    case None => rows + [row]
  }

  /** The title of the button the panel adds after the registered ones. */
  const LogButtonTitle := "Open logs"

  /** The key of the row the panel shows first. */
  const BundleIdentifierKey := "Bundle identifier"

  class DebugPanel {
    var rows: seq<DebugRow>
    var buttons: seq<DebugRowButton>
    /** Whether a panel is on screen: the weak `navigationController` is set. */
    var presented: bool
    /** How many panels `present(in:)` has put on screen. */
    var presentations: nat

    constructor ()
      ensures rows == [] && buttons == [] && !presented && presentations == 0
    {
      rows := [];
      buttons := [];
      presented := false;
      presentations := 0;
    }

    /** `present(in:)`: while a panel is on screen, nothing happens; otherwise one is put on screen. */
    method Present()
      modifies this
      ensures presented
      ensures presentations == old(presentations) + (if old(presented) then 0 else 1)
      ensures rows == old(rows) && buttons == old(buttons)
    {
      if presented {
        return;
      }
      presented := true;
      presentations := presentations + 1;
    }

    /** `dismiss()`: the panel leaves the screen. */
    method Dismiss()
      modifies this
      ensures !presented
      ensures presentations == old(presentations) && rows == old(rows) && buttons == old(buttons)
    {
      presented := false;
    }

    /**
     * The weak `navigationController` going nil because the panel's controller was released
     * some other way (swiped down, or dismissed with the controller presenting it): the panel
     * counts as off screen, so the next `present(in:)` is not refused.
     */
    method ControllerReleased()
      modifies this
      ensures !presented
      ensures presentations == old(presentations) && rows == old(rows) && buttons == old(buttons)
    {
      presented := false;
    }

    /**
     * `add(key:value:)`: a row with the same key is removed and the new row inserted at its
     * index; a new key is appended.
     */
    method Add(key: string, value: () -> Option<string>)
      modifies this
      ensures rows == Upserted(old(rows), DebugRow(key, value))
      ensures buttons == old(buttons) && presented == old(presented)
    {
      var row := DebugRow(key, value);
      var i := 0;
      while i < |rows| && rows[i].key != key
        invariant 0 <= i <= |rows|
        invariant forall k :: 0 <= k < i ==> rows[k].key != key
      {
        i := i + 1;
      }
      if i < |rows| {
        rows := rows[..i] + rows[i + 1..];
        rows := rows[..i] + [row] + rows[i..];
        assert rows == old(rows)[i := row];
      } else {
        rows := rows + [row];
      }
    }

    /** `add(key:value:)` with a fixed optional string: a provider that reports it. */
    method AddValue(key: string, value: Option<string>)
      modifies this
      ensures rows == Upserted(old(rows), DebugRow(key, () => value))
      ensures buttons == old(buttons) && presented == old(presented)
    {
      Add(key, () => value);
    }

    /** `addButton(title:action:)`: always appended, even with a title already present. */
    method AddButton(title: string)
      modifies this
      ensures buttons == old(buttons) + [DebugRowButton(title)]
      ensures rows == old(rows) && presented == old(presented)
    {
      buttons := buttons + [DebugRowButton(title)];
    }
  }

  // ---------------------------------------------------------------- properties of add

  /** An existing key: the count is unchanged, the new row takes the old row's index, every other row stays. */
  lemma UpsertReplacesInPlace(rows: seq<DebugRow>, row: DebugRow, index: nat)
    requires index < |rows| && rows[index].key == row.key
    requires forall i :: 0 <= i < index ==> rows[i].key != row.key
    ensures var r := Upserted(rows, row);
      |r| == |rows| && r[index] == row && forall i :: 0 <= i < |rows| && i != index ==> r[i] == rows[i]
  {
  }

  /** A new key: the row is appended and the rows before it are unchanged. */
  lemma UpsertAppendsNewKey(rows: seq<DebugRow>, row: DebugRow)
    requires forall i :: 0 <= i < |rows| ==> rows[i].key != row.key
    ensures Upserted(rows, row) == rows + [row]
  {
  }

  /** Keys stay unique, and the key is present afterwards with the new row. */
  lemma UpsertKeepsKeysUnique(rows: seq<DebugRow>, row: DebugRow)
    requires UniqueKeys(rows)
    ensures var r := Upserted(rows, row);
      UniqueKeys(r) && exists i :: 0 <= i < |r| && r[i] == row
  {
    var r := Upserted(rows, row);
    match FirstIndex(rows, row.key)
    case Some(index) =>
      assert r[index] == row;
    case None =>
      assert r[|rows|] == row;
  }

  /** The set of keys after adding is the old set plus the new key. */
  lemma UpsertKeys(rows: seq<DebugRow>, row: DebugRow)
    ensures var r := Upserted(rows, row);
      Keys(r) == Keys(rows) + {row.key}
  {
    var r := Upserted(rows, row);
    match FirstIndex(rows, row.key)
    case Some(index) =>
      forall k | k in Keys(rows) + {row.key}
        ensures k in Keys(r)
      {
        if k != row.key {
          var i :| 0 <= i < |rows| && rows[i].key == k;
          assert r[i] == rows[i];
        } else {
          assert r[index].key == k;
        }
      }
    case None =>
      forall k | k in Keys(rows) + {row.key}
        ensures k in Keys(r)
      {
        if k != row.key {
          var i :| 0 <= i < |rows| && rows[i].key == k;
          assert r[i] == rows[i];
        } else {
          assert r[|rows|].key == k;
        }
      }
  }

  // ---------------------------------------------------------------- what the panel shows

  /** `setupRows()`: the bundle identifier first, then the registered rows in order. */
  ghost function DisplayedRows(rows: seq<DebugRow>, bundleIdentifier: Option<string>): (r: seq<DebugRow>)
    ensures |r| == |rows| + 1
    ensures r[0].key == BundleIdentifierKey && r[0].value() == bundleIdentifier
    ensures forall i :: 0 <= i < |rows| ==> r[i + 1] == rows[i]
  {
    [DebugRow(BundleIdentifierKey, () => bundleIdentifier)] + rows
  }

  /** The buttons below the rows: the registered ones in order, then the log button. */
  function DisplayedButtons(buttons: seq<DebugRowButton>): (r: seq<DebugRowButton>)
    ensures |r| == |buttons| + 1
    ensures forall i :: 0 <= i < |buttons| ==> r[i] == buttons[i]
    ensures r[|buttons|].title == LogButtonTitle
  {
    buttons + [DebugRowButton(LogButtonTitle)]
  }

  /** The longest value shown as it is. */
  const MaxShownLength := 64

  /**
   * The text of a row's value label: "<data>" for a value over 64 characters or with a
   * line break, "(nil)" for a missing or empty value, the value itself otherwise.
   */
  function ValueText(value: Option<string>): (r: string)
    ensures var s := value.GetOr("");
      (|s| > MaxShownLength || '\n' in s ==> r == "<data>")
      && (s == [] ==> r == "(nil)")
      && (0 < |s| <= MaxShownLength && '\n' !in s ==> r == s)
    ensures |r| <= MaxShownLength && '\n' !in r
  {
    var aString := value.GetOr("");
    if |aString| > MaxShownLength || '\n' in aString then "<data>"
    else if aString == [] then "(nil)"
    else aString
  }

  /** A value is shown as it is exactly when it is not empty, at most 64 characters, and on one line. */
  lemma ShownAsIs(value: string)
    ensures ValueText(Some(value)) == value <==> 0 < |value| <= MaxShownLength && '\n' !in value
  {
    if |value| > MaxShownLength || '\n' in value {
      assert ValueText(Some(value)) == "<data>";
      assert value != "<data>" by {
        if |value| <= MaxShownLength {
          assert '\n' in value;
          assert '\n' !in "<data>";
        }
      }
    }
  }

  /** A missing value and an empty one display alike, dimmed. */
  function ValueAlpha(value: Option<string>): (r: real)
    ensures r == 0.5 <==> value.GetOr("") == []
    ensures r != 0.5 ==> r == 1.0
  {
    if value.GetOr("") == [] then 0.5 else 1.0
  }

  /**
   * Presenting twice puts one panel on screen, unless the panel's controller was released in
   * between, dismissed or not through `dismiss()`: then a second panel is presented.
   */
  method PresentTwice(releasedBetween: bool) returns (presentations: nat)
    ensures presentations == if releasedBetween then 2 else 1
  {
    var panel := new DebugPanel();
    panel.Present();
    if releasedBetween {
      panel.ControllerReleased();
    }
    panel.Present();
    presentations := panel.presentations;
  }

  // ---------------------------------------------------------------- the copy button

  /** The title that makes tapping the copy button open the value in a viewer. */
  const ViewTitle := "View"

  /**
   * A row's copy button, as `setCopyButtonText(value:)` configures it: hidden or not, its
   * title and image, and its width. Tapping it opens the value in a viewer when its title
   * is "View" and copies the value otherwise. Starts untitled, without image, 16 wide.
   */
  class CopyButton {
    var hidden: bool
    var title: Option<string>
    var image: Option<string>
    var width: int

    constructor ()
      ensures !hidden && title.None? && image.None? && width == 16
    {
      hidden := false;
      title := None;
      image := None;
      width := 16;
    }

    /** Whether a tap opens the viewer rather than copying. */
    function OpensViewer(): (r: bool)
      reads this
      ensures r <==> title == Some(ViewTitle)
    {
      title == Some(ViewTitle)
    }

    /**
     * `setCopyButtonText(value:)` as written: hidden exactly for an empty value; "View",
     * 64 wide, for a value over 64 characters; otherwise 16 wide with the copy image (iOS
     * 13 and later, `imageAvailable`) or the title "Copy". The image branch leaves the title
     * as it was.
     */
    method SetCopyButtonText(value: string, imageAvailable: bool)
      modifies this
      ensures hidden <==> value == []
      ensures |value| > MaxShownLength ==> title == Some(ViewTitle) && width == 64 && image == old(image)
      ensures |value| <= MaxShownLength && imageAvailable ==> width == 16 && image == Some("doc.on.doc") && title == old(title)
      ensures |value| <= MaxShownLength && !imageAvailable ==> width == 16 && title == Some("Copy") && image == old(image)
    {
      hidden := value == [];
      if |value| > MaxShownLength {
        title := Some(ViewTitle);
        width := 64;
        return;
      }
      width := 16;
      if imageAvailable {
        image := Some("doc.on.doc");
      } else {
        title := Some("Copy");
      }
    }

    /**
     * `setCopyButtonText(value:)` as intended: the image branch also clears the title, so a
     * tap opens the viewer exactly when the last value reported was over 64 characters,
     * whatever was reported before.
     */
    method SetCopyButtonTextIntended(value: string, imageAvailable: bool)
      modifies this
      ensures hidden <==> value == []
      ensures OpensViewer() <==> |value| > MaxShownLength
      ensures |value| > MaxShownLength ==> title == Some(ViewTitle) && width == 64 && image == old(image)
      ensures |value| <= MaxShownLength && imageAvailable ==> width == 16 && image == Some("doc.on.doc") && title.None?
      ensures |value| <= MaxShownLength && !imageAvailable ==> width == 16 && title == Some("Copy") && image == old(image)
    {
      hidden := value == [];
      if |value| > MaxShownLength {
        title := Some(ViewTitle);
        width := 64;
        return;
      }
      width := 16;
      if imageAvailable {
        image := Some("doc.on.doc");
        title := None;
      } else {
        title := Some("Copy");
      }
    }
  }

  /** A value of 65 characters. */
  function LongValue(): (r: string)
    ensures |r| == MaxShownLength + 1
  {
    seq(MaxShownLength + 1, _ => 'x')
  }

  /**
   * A provider that reports a long value and then a short one, on iOS 13 or later: as
   * written, the button still opens the viewer for the short value.
   */
  method LongThenShortAsWritten() returns (opensViewer: bool)
    ensures opensViewer
  {
    var button := new CopyButton();
    button.SetCopyButtonText(LongValue(), true);
    button.SetCopyButtonText("a", true);
    opensViewer := button.OpensViewer();
  }

  /** The same reports with the intended configuration: the short value is copied. */
  method LongThenShortIntended() returns (opensViewer: bool)
    ensures !opensViewer
  {
    var button := new CopyButton();
    button.SetCopyButtonTextIntended(LongValue(), true);
    button.SetCopyButtonTextIntended("a", true);
    opensViewer := button.OpensViewer();
  }

  // ---------------------------------------------------------------- a row on screen

  /** What tapping the copy button does: open the raw value in a viewer titled with the key, or copy it. */
  datatype TapResult = OpenViewer(title: string, text: string) | Copy(value: Option<string>)

  /** A row on screen: the last value reported, the label's text and opacity, and the copy button. */
  class RowView {
    const key: string
    var rawValue: Option<string>
    var text: string
    var alpha: real
    const copyButton: CopyButton

    /** The label reads "..." until the provider reports. */
    constructor (key: string)
      ensures this.key == key && rawValue.None? && text == "..." && alpha == 1.0
      ensures fresh(copyButton) && !copyButton.hidden && !copyButton.OpensViewer()
    {
      this.key := key;
      rawValue := None;
      text := "...";
      alpha := 1.0;
      copyButton := new CopyButton();
    }

    /**
     * The provider's completion: the value is kept and displayed by the rules above, and the
     * copy button configured as written. A tap then opens the viewer for a value over 64
     * characters, and otherwise only when the copy image is used and an earlier report had
     * left the title "View".
     */
    method Report(value: Option<string>, imageAvailable: bool)
      modifies this, copyButton
      ensures rawValue == value && text == ValueText(value) && alpha == ValueAlpha(value)
      ensures copyButton.hidden <==> value.GetOr("") == []
      ensures copyButton.OpensViewer() <==>
                |value.GetOr("")| > MaxShownLength || (imageAvailable && old(copyButton.OpensViewer()))
    {
      rawValue := value;
      var aString := value.GetOr("");
      if |aString| > MaxShownLength || '\n' in aString {
        text := "<data>";
      } else {
        text := if aString == [] then "(nil)" else aString;
      }
      copyButton.SetCopyButtonText(aString, imageAvailable);
      alpha := if aString == [] then 0.5 else 1.0;
    }

    /** The same completion with the copy button configured as intended: the viewer opens exactly for a long value. */
    method ReportIntended(value: Option<string>, imageAvailable: bool)
      modifies this, copyButton
      ensures rawValue == value && text == ValueText(value) && alpha == ValueAlpha(value)
      ensures copyButton.hidden <==> value.GetOr("") == []
      ensures copyButton.OpensViewer() <==> |value.GetOr("")| > MaxShownLength
    {
      rawValue := value;
      var aString := value.GetOr("");
      if |aString| > MaxShownLength || '\n' in aString {
        text := "<data>";
      } else {
        text := if aString == [] then "(nil)" else aString;
      }
      copyButton.SetCopyButtonTextIntended(aString, imageAvailable);
      alpha := if aString == [] then 0.5 else 1.0;
    }

    /** `tapCopy()`: a "View" button opens the viewer on the raw value; any other copies it. */
    method TapCopy() returns (r: TapResult)
      ensures copyButton.OpensViewer() ==> r == OpenViewer(key, rawValue.GetOr(""))
      ensures !copyButton.OpensViewer() ==> r == Copy(rawValue)
    {
      if copyButton.title == Some(ViewTitle) {
        return OpenViewer(key, rawValue.GetOr(""));
      }
      return Copy(rawValue);
    }
  }

  /** After the first report on a new row, a long value is opened in the viewer whole, and a short one is copied. */
  method ReportThenTap(key: string, value: string) returns (r: TapResult)
    ensures |value| > MaxShownLength ==> r == OpenViewer(key, value)
    ensures |value| <= MaxShownLength ==> r == Copy(Some(value))
  {
    var view := new RowView(key);
    view.Report(Some(value), true);
    r := view.TapCopy();
  }

  /**
   * A row whose provider reports a long value and then a short one, on iOS 13 or later:
   * as written, tapping opens the viewer on the short value instead of copying it.
   */
  method RowLongThenShortAsWritten(key: string, short: string) returns (r: TapResult)
    requires |short| <= MaxShownLength
    ensures r == OpenViewer(key, short)
  {
    var view := new RowView(key);
    view.Report(Some(LongValue()), true);
    view.Report(Some(short), true);
    r := view.TapCopy();
  }

  /** The same reports with the intended configuration: the short value is copied. */
  method RowLongThenShortIntended(key: string, short: string) returns (r: TapResult)
    requires |short| <= MaxShownLength
    ensures r == Copy(Some(short))
  {
    var view := new RowView(key);
    view.ReportIntended(Some(LongValue()), true);
    view.ReportIntended(Some(short), true);
    r := view.TapCopy();
  }
}
