/**
 * The image canvas: the explanation parser, the choice of the one panel the
 * canvas shows, and the rotating loading message.
 */
module ImageCanvas {
  import opened Wrappers
  import opened JsString

  // ---------------------------------------------------------------------------
  // Explanation parser
  // ---------------------------------------------------------------------------

  /** A parsed explanation: a title line and the bullet points below it, in order. */
  datatype Explanation = Explanation(title: string, points: seq<string>)

  /** `lines.filter(line => line.trim() !== '')`: the lines that are not whitespace-only. */
  function NonBlankLines(lines: seq<string>): (r: seq<string>)
    ensures |r| <= |lines|
  {
    if lines == [] then []
    else
      var rest := NonBlankLines(lines[1..]);
      if Trim(lines[0]) != [] then [lines[0]] + rest else rest
  }

  /** The line starts with the bullet marker `"* "`. */
  predicate HasMarker(line: string) {
    |line| >= 2 && line[..2] == "* "
  }

  /** `line.replace(/^\* /, '')`: the line without one leading bullet marker, if it has one. */
  function StripMarker(line: string): (r: string)
    ensures HasMarker(line) ==> "* " + r == line
    ensures !HasMarker(line) ==> r == line
  {
    if HasMarker(line) then line[2..] else line
  }

  /** `lines.map(line => line.replace(/^\* /, ''))`. */
  function StripMarkers(lines: seq<string>): seq<string> {
    seq(|lines|, i requires 0 <= i < |lines| => StripMarker(lines[i]))
  }

  /** Removing markers adds no newline. */
  lemma NoNewlinesStripped(lines: seq<string>)
    requires NoNewlines(lines)
    ensures NoNewlines(StripMarkers(lines))
  {
    forall i | 0 <= i < |lines| ensures '\n' !in StripMarkers(lines)[i] {
      var l := lines[i];
      if HasMarker(l) {
        assert forall j :: 0 <= j < |l| - 2 ==> l[2..][j] == l[j + 2];
      }
    }
  }

  /** Title and points from the non-blank lines: `lines.shift()` and the rest. */
  function FromLines(lines: seq<string>): Option<Explanation> {
    if |lines| == 0 then None else Some(Explanation(lines[0], StripMarkers(lines[1..])))
  }

  /**
   * `ExplanationRenderer`: nothing for an empty text or when no line is left
   * after dropping the whitespace-only ones; otherwise the first remaining line
   * as the title and each later one, marker stripped, as a point.
   */
  function ParseExplanation(text: string): Option<Explanation> {
    if text == [] then None else FromLines(NonBlankLines(Split(text)))
  }

  /**
   * A parsed title is never whitespace-only, and neither title nor points hold
   * a newline; there is one point per non-blank line after the title.
   */
  lemma ParseShape(text: string)
    ensures var r := ParseExplanation(text);
      r.Some? ==> !IsBlank(r.value.title) && '\n' !in r.value.title && NoNewlines(r.value.points) &&
                  |r.value.points| == |NonBlankLines(Split(text))| - 1
  {
    var lines := NonBlankLines(Split(text));
    if text != [] && lines != [] {
      SplitNoNewlines(text);
      NonBlankLinesKept(Split(text));
      NoNewlinesStripped(lines[1..]);
    }
  }

  /** Every kept line is non-blank, and a kept line has no newline when no input line had one. */
  lemma {:induction false} NonBlankLinesKept(lines: seq<string>)
    ensures forall i :: 0 <= i < |NonBlankLines(lines)| ==> !IsBlank(NonBlankLines(lines)[i])
    ensures NoNewlines(lines) ==> NoNewlines(NonBlankLines(lines))
  {
    if lines != [] {
      NonBlankLinesKept(lines[1..]);
      TrimEmptyIffBlank(lines[0]);
      var rest := NonBlankLines(lines[1..]);
      if Trim(lines[0]) != [] {
        var r := [lines[0]] + rest;
        assert NonBlankLines(lines) == r;
        forall i | 0 <= i < |r| ensures !IsBlank(r[i]) && (NoNewlines(lines) ==> '\n' !in r[i]) {
          if i > 0 {
            assert r[i] == rest[i - 1];
            assert NoNewlines(lines) ==> NoNewlines(lines[1..]);
          }
        }
      } else {
        assert NoNewlines(lines) ==> NoNewlines(lines[1..]);
      }
    }
  }

  /** `NonBlankLines` keeps order: filtering a concatenation concatenates the filtered parts. */
  lemma {:induction false} NonBlankLinesAppend(a: seq<string>, b: seq<string>)
    ensures NonBlankLines(a + b) == NonBlankLines(a) + NonBlankLines(b)
  {
    if a != [] {
      assert a + b != [] && (a + b)[0] == a[0] && (a + b)[1..] == a[1..] + b;
      NonBlankLinesAppend(a[1..], b);
    } else {
      assert a + b == b;
    }
  }

  /** Nothing is left after filtering exactly when every line is whitespace-only. */
  lemma {:induction false} NonBlankLinesEmpty(lines: seq<string>)
    ensures NonBlankLines(lines) == [] <==> forall i :: 0 <= i < |lines| ==> IsBlank(lines[i])
  {
    if lines != [] {
      NonBlankLinesEmpty(lines[1..]);
      TrimEmptyIffBlank(lines[0]);
      assert forall i :: 1 <= i < |lines| ==> lines[i] == lines[1..][i - 1];
    }
  }

  /** The empty text takes the same path as any other: its one line is blank. */
  lemma ParseByLines(text: string)
    ensures ParseExplanation(text) == FromLines(NonBlankLines(Split(text)))
  {
    if text == [] {
      assert Split(text) == [[]];
      TrimEmptyIffBlank([]);
    }
  }

  /** The parser yields nothing exactly for whitespace-only text (the empty text included). */
  lemma ParseNoneIffBlank(text: string)
    ensures ParseExplanation(text).None? <==> IsBlank(text)
  {
    ParseByLines(text);
    JoinSplit(text);
    JoinBlank(Split(text));
    NonBlankLinesEmpty(Split(text));
  }

  /**
   * The title is the first line that is not whitespace-only, unmodified, and
   * the points come from the non-blank lines after it, in order.
   */
  lemma ParseTitleIsFirstNonBlankLine(text: string, k: nat)
    requires k < |Split(text)| && !IsBlank(Split(text)[k])
    requires forall j :: 0 <= j < k ==> IsBlank(Split(text)[j])
    ensures ParseExplanation(text) ==
            Some(Explanation(Split(text)[k], StripMarkers(NonBlankLines(Split(text)[k + 1..]))))
  {
    ParseByLines(text);
    FirstNonBlankLine(Split(text), k);
  }

  /** Filtering drops the whitespace-only lines before the first non-blank one and keeps that one. */
  lemma {:induction false} FirstNonBlankLine(lines: seq<string>, k: nat)
    requires k < |lines| && !IsBlank(lines[k])
    requires forall j :: 0 <= j < k ==> IsBlank(lines[j])
    ensures NonBlankLines(lines) == [lines[k]] + NonBlankLines(lines[k + 1..])
  {
    TrimEmptyIffBlank(lines[0]);
    if k > 0 {
      var tail := lines[1..];
      assert forall j :: 0 <= j < k - 1 ==> tail[j] == lines[j + 1];
      FirstNonBlankLine(tail, k - 1);
      assert tail[k..] == lines[k + 1..];
    }
  }

  /** The lines of `text` followed by one more line. */
  lemma SplitAppendLine(text: string, line: string)
    requires '\n' !in line
    ensures Split(text + "\n" + line) == Split(text) + [line]
  {
    JoinSplit(text);
    JoinAppend(Split(text), line);
    SplitNoNewlines(text);
    assert NoNewlines(Split(text) + [line]);
    SplitJoin(Split(text) + [line]);
  }

  /**
   * Points keep the input order: one more non-blank line after a text becomes
   * its last point (or the title when the text had none); a blank one changes nothing.
   */
  lemma ParseAppendLine(text: string, line: string)
    requires '\n' !in line
    ensures ParseExplanation(text + "\n" + line) ==
            if IsBlank(line) then ParseExplanation(text)
            else match ParseExplanation(text)
                 case None => Some(Explanation(line, []))
                 case Some(e) => Some(Explanation(e.title, e.points + [StripMarker(line)]))
  {
    ParseByLines(text);
    ParseByLines(text + "\n" + line);
    SplitAppendLine(text, line);
    NonBlankLinesAppend(Split(text), [line]);
    TrimEmptyIffBlank(line);
    var kept := NonBlankLines(Split(text));
    if IsBlank(line) {
      assert NonBlankLines([line]) == [];
      assert kept + [] == kept;
    } else {
      assert NonBlankLines([line]) == [line];
      FromLinesAppend(kept, line);
    }
  }

  /** Title and points of the filtered lines with one more line at the end. */
  lemma FromLinesAppend(lines: seq<string>, line: string)
    ensures FromLines(lines + [line]) ==
            match FromLines(lines)
            case None => Some(Explanation(line, []))
            case Some(e) => Some(Explanation(e.title, e.points + [StripMarker(line)]))
  {
    if lines == [] {
      assert lines + [line] == [line] && [line][1..] == [];
      assert StripMarkers([]) == [];
    } else {
      assert (lines + [line])[1..] == lines[1..] + [line];
      assert StripMarkers(lines[1..] + [line]) == StripMarkers(lines[1..]) + [StripMarker(line)];
    }
  }

  /** A single line gives itself as the title, neither trimmed nor stripped of a marker. */
  lemma ParseSingleLine(line: string)
    requires '\n' !in line
    ensures ParseExplanation(line) == if IsBlank(line) then None else Some(Explanation(line, []))
  {
    ParseByLines(line);
    SplitSingle(line);
    TrimEmptyIffBlank(line);
    assert NonBlankLines([line]) == (if IsBlank(line) then [] else [line]);
    assert [line][1..] == [] && StripMarkers([]) == [];
  }

  /** The bullet lines `"* " + p` of a list of points. */
  function Bullets(points: seq<string>): seq<string> {
    seq(|points|, i requires 0 <= i < |points| => "* " + points[i])
  }

  /**
   * A title line followed by one `"* "` bullet line per point parses back to
   * exactly that title and those points.
   */
  lemma ParseBullets(e: Explanation)
    requires !IsBlank(e.title) && '\n' !in e.title && NoNewlines(e.points)
    ensures ParseExplanation(Join([e.title] + Bullets(e.points))) == Some(e)
  {
    var lines := [e.title] + Bullets(e.points);
    BulletLines(e.points);
    assert lines[1..] == Bullets(e.points);
    assert NoNewlines(lines) && forall i :: 0 <= i < |lines| ==> !IsBlank(lines[i]) by {
      forall i | 1 <= i < |lines| ensures '\n' !in lines[i] && !IsBlank(lines[i]) {
        assert lines[i] == Bullets(e.points)[i - 1];
      }
    }
    SplitJoin(lines);
    ParseByLines(Join(lines));
    AllNonBlankKept(lines);
  }

  /** Bullet lines are never whitespace-only, hold no newline, and lose exactly their marker. */
  lemma BulletLines(points: seq<string>)
    requires NoNewlines(points)
    ensures NoNewlines(Bullets(points))
    ensures forall i :: 0 <= i < |points| ==> !IsBlank(Bullets(points)[i])
    ensures StripMarkers(Bullets(points)) == points
  {
    var bullets := Bullets(points);
    forall i | 0 <= i < |points|
      ensures '\n' !in bullets[i] && !IsBlank(bullets[i]) && StripMarker(bullets[i]) == points[i]
    {
      var b := bullets[i];
      assert b == "* " + points[i];
      assert b[0] == '*' && HasMarker(b) && b[2..] == points[i];
      assert forall j :: 2 <= j < |b| ==> b[j] == points[i][j - 2];
    }
  }

  /** Filtering a list of lines none of which is whitespace-only keeps them all. */
  lemma {:induction false} AllNonBlankKept(lines: seq<string>)
    requires forall i :: 0 <= i < |lines| ==> !IsBlank(lines[i])
    ensures NonBlankLines(lines) == lines
  {
    if lines != [] {
      TrimEmptyIffBlank(lines[0]);
      assert forall i :: 0 <= i < |lines| - 1 ==> lines[1..][i] == lines[i + 1];
      AllNonBlankKept(lines[1..]);
    }
  }

  // ---------------------------------------------------------------------------
  // Panel selection
  // ---------------------------------------------------------------------------

  /** The canvas props; `None` stands for `null`. */
  datatype CanvasProps = CanvasProps(
    imageData: Option<string>, explanation: Option<string>, isLoading: bool, error: Option<string>)

  /** JavaScript truthiness of a `string | null`: present and not the empty string. */
  predicate Truthy(s: Option<string>) {
    s.Some? && s.value != []
  }

  /** The guard of the loading overlay. */
  predicate ShowsLoading(p: CanvasProps) {
    p.isLoading
  }

  /** The guard of the error message. */
  predicate ShowsError(p: CanvasProps) {
    Truthy(p.error) && !p.isLoading
  }

  /** The guard of the image and its explanation. */
  predicate ShowsResult(p: CanvasProps) {
    !p.isLoading && !Truthy(p.error) && Truthy(p.imageData)
  }

  /** The guard of the welcome text. */
  predicate ShowsWelcome(p: CanvasProps) {
    !p.isLoading && !Truthy(p.error) && !Truthy(p.imageData)
  }

  /** What the canvas shows, with the data each panel displays. */
  datatype Panel =
    | LoadingPanel(message: string)
    | ErrorPanel(error: string)
    | ResultPanel(image: string, explanation: Option<Explanation>)
    | WelcomePanel

  /**
   * The one panel the canvas shows: each variant is chosen exactly when its
   * guard in the markup holds; the loading panel shows the current message and
   * the result panel the parsed explanation when there is a non-empty one.
   */
  function SelectPanel(p: CanvasProps, messageIndex: nat): (r: Panel)
    requires messageIndex < |LoadingMessages|
    ensures r.LoadingPanel? <==> ShowsLoading(p)
    ensures r.ErrorPanel? <==> ShowsError(p)
    ensures r.ResultPanel? <==> ShowsResult(p)
    ensures r.WelcomePanel? <==> ShowsWelcome(p)
    ensures r.LoadingPanel? ==> r.message == LoadingMessages[messageIndex]
    ensures r.ErrorPanel? ==> p.error == Some(r.error) && r.error != []
    ensures r.ResultPanel? ==> p.imageData == Some(r.image) && r.image != []
    ensures r.ResultPanel? ==>
      r.explanation == if Truthy(p.explanation) then ParseExplanation(p.explanation.value) else None
  {
    if p.isLoading then LoadingPanel(LoadingMessages[messageIndex])
    else if Truthy(p.error) then ErrorPanel(p.error.value)
    else if Truthy(p.imageData) then
      ResultPanel(p.imageData.value, if Truthy(p.explanation) then ParseExplanation(p.explanation.value) else None)
    else WelcomePanel
  }

  /** The four guards never overlap and never all fail: loading beats an error, an error beats an image. */
  lemma ExactlyOnePanel(p: CanvasProps)
    ensures ShowsLoading(p) || ShowsError(p) || ShowsResult(p) || ShowsWelcome(p)
    ensures !(ShowsLoading(p) && ShowsError(p)) && !(ShowsLoading(p) && ShowsResult(p))
    ensures !(ShowsLoading(p) && ShowsWelcome(p)) && !(ShowsError(p) && ShowsResult(p))
    ensures !(ShowsError(p) && ShowsWelcome(p)) && !(ShowsResult(p) && ShowsWelcome(p))
  {
  }

  /** An explanation is shown only in the result panel, and only for a non-blank explanation text. */
  lemma ExplanationShownOnlyWithResult(p: CanvasProps, messageIndex: nat)
    requires messageIndex < |LoadingMessages|
    ensures var r := SelectPanel(p, messageIndex);
      (r.ResultPanel? && r.explanation.Some?) <==>
      (ShowsResult(p) && p.explanation.Some? && !IsBlank(p.explanation.value))
  {
    if p.explanation.Some? {
      ParseNoneIffBlank(p.explanation.value);
    }
  }

  // ---------------------------------------------------------------------------
  // Loading message ticker
  // ---------------------------------------------------------------------------

  /** The messages the loading overlay rotates through. */
  const LoadingMessages: seq<string> := [
    "Consulting clinical textbooks...",
    "Sketching mnemonic symbols...",
    "Composing the visual narrative...",
    "Reviewing high-yield facts...",
    "Finalizing the artwork..."
  ]

  /** The interval step `(prevIndex + 1) % loadingMessages.length`: the next message, wrapping to the first. */
  function NextMessageIndex(i: nat): (j: nat)
    ensures j < |LoadingMessages|
    ensures i + 1 < |LoadingMessages| ==> j == i + 1
    ensures i + 1 == |LoadingMessages| ==> j == 0
  {
    (i + 1) % |LoadingMessages|
  }

  /** The message index after `k` interval steps from the initial index 0. */
  function IndexAfterTicks(k: nat): (i: nat)
    ensures i < |LoadingMessages|
  {
    if k == 0 then 0 else NextMessageIndex(IndexAfterTicks(k - 1))
  }

  /** After `k` steps the index is `k` modulo the number of messages. */
  lemma {:induction false} IndexAfterTicksIsMod(k: nat)
    ensures IndexAfterTicks(k) == k % |LoadingMessages|
  {
    if k > 0 {
      IndexAfterTicksIsMod(k - 1);
      var n := |LoadingMessages|;
      assert (k - 1) % n + 1 < n ==> (k - 1) % n + 1 == k % n;
      assert (k - 1) % n + 1 == n ==> k % n == 0;
    }
  }

  /**
   * The `currentMessageIndex` state of one mounted canvas. It starts at 0 when
   * the canvas mounts and is never reset: a later loading phase continues from
   * where the previous one stopped.
   */
  class MessageTicker {
    var index: nat
    /** The interval steps run since mount, over all loading phases. */
    ghost var ticks: nat

    ghost predicate Valid()
      reads this
    {
      index == IndexAfterTicks(ticks)
    }

    /** `useState(0)`: the state at mount. */
    constructor ()
      ensures Valid() && index == 0 && ticks == 0
    {
      index := 0;
      ticks := 0;
    }

    /**
     * One period of the interval. The interval exists only while `isLoading`,
     * so when not loading nothing changes.
     */
    method Tick(isLoading: bool)
      requires Valid()
      modifies this
      ensures Valid()
      ensures isLoading ==> index == NextMessageIndex(old(index)) && ticks == old(ticks) + 1
      ensures !isLoading ==> index == old(index) && ticks == old(ticks)
    {
      if isLoading {
        index := NextMessageIndex(index);
        ticks := ticks + 1;
      }
    }

    /** `loadingMessages[currentMessageIndex]`: always in bounds, the message after `ticks` steps. */
    function Message(): (m: string)
      reads this
      requires Valid()
      ensures m == LoadingMessages[ticks % |LoadingMessages|]
    {
      IndexAfterTicksIsMod(ticks);
      LoadingMessages[index]
    }
  }

  /**
   * Two loading phases with an idle period between them: the second phase
   * continues from the index the first one reached instead of starting over.
   */
  method LoadingPhasesShareIndex() returns (i: nat)
    ensures i == 3
  {
    var ticker := new MessageTicker();
    ticker.Tick(true);
    ticker.Tick(true);
    ticker.Tick(false);
    ticker.Tick(true);
    i := ticker.index;
  }
}
