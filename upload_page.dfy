/**
 * The upload form: the tools field is typed as one comma-separated string and
 * turned into the list of tools the create request carries.
 */
module UploadPage {
  import opened Wrappers
  import opened Text
  import opened Seqs
  import opened Schema

  /** The form's values: a new tutorial whose tools are still one string. */
  datatype FormValues = FormValues(
    title: string,
    imageSource: string,
    styleCategory: string,
    difficultyLevel: string,
    toolsRequired: string,
    tutorialContent: string,
    creatorCredit: Option<string>)

  /** The extra check on the tools field: at least one character. */
  predicate ToolsFieldValid(raw: string) {
    |raw| >= 1
  }

  function NonEmpty(s: string): bool {
    s != ""
  }

  /** `raw.split(",").map(t => t.trim()).filter(t => t.length > 0)`. */
  function ParseTools(raw: string): seq<string> {
    Filter(MapSeq(Split(raw, ','), Trim), NonEmpty)
  }

  /** The characters of a trimmed string come from the string. */
  lemma TrimChars(s: string)
    ensures forall c :: c in Trim(s) ==> c in s
  {
    var a := TrimStart(s);
    assert forall c :: c in a ==> c in s;
    assert forall c :: c in TrimEnd(a) ==> c in a;
  }

  /** A string of white space trims to nothing. */
  lemma TrimAllSpace(s: string)
    requires forall k :: 0 <= k < |s| ==> IsSpace(s[k])
    ensures Trim(s) == ""
  {
  }

  /** Every character of a piece is a character of the joined text. */
  lemma {:induction false} JoinChars(parts: seq<string>, c: char)
    ensures forall k, x :: 0 <= k < |parts| && x in parts[k] ==> x in Join(parts, c)
  {
    if |parts| > 1 {
      JoinChars(parts[1..], c);
      var j := Join(parts, c);
      assert j == parts[0] + [c] + Join(parts[1..], c);
      forall k, x | 0 <= k < |parts| && x in parts[k] ensures x in j {
        if k > 0 {
          assert parts[k] == parts[1..][k - 1];
        }
      }
    }
  }

  /** No parsed tool is empty, none holds a comma, each is its own trim, and the
      tools keep the order of the pieces they come from. */
  lemma ParseToolsSpec(raw: string)
    ensures var tools := ParseTools(raw);
      && (forall k :: 0 <= k < |tools| ==> tools[k] != "" && Trim(tools[k]) == tools[k] && ',' !in tools[k])
      && IsSubsequence(tools, MapSeq(Split(raw, ','), Trim))
  {
    var pieces := Split(raw, ',');
    var trimmed := MapSeq(pieces, Trim);
    var tools := ParseTools(raw);
    FilterMembers(trimmed, NonEmpty);
    FilterIsSubsequence(trimmed, NonEmpty);
    forall k | 0 <= k < |tools| ensures Trim(tools[k]) == tools[k] && ',' !in tools[k] {
      assert tools[k] in trimmed;
      var m :| 0 <= m < |trimmed| && trimmed[m] == tools[k];
      TrimIdempotent(pieces[m]);
      TrimChars(pieces[m]);
    }
  }

  /** Joining non-empty, trimmed, comma-free tools with "," parses back to them. */
  lemma ParseToolsOfJoin(tools: seq<string>)
    requires forall k :: 0 <= k < |tools| ==> tools[k] != "" && Trim(tools[k]) == tools[k] && ',' !in tools[k]
    ensures ParseTools(Join(tools, ',')) == tools
  {
    if tools == [] {
      EmptyField();
    } else {
      SplitJoin(tools, ',');
      MapTrimOfTrimmed(tools);
      FilterAll(tools, NonEmpty);
    }
  }

  /** An empty field gives no tool. */
  lemma EmptyField()
    ensures ParseTools("") == []
  {
    var e: string := [];
    assert IndexOfChar(e, ',').None?;
    assert Split(e, ',') == [e];
    assert MapSeq([e], Trim) == [e];
    assert Filter([e], NonEmpty) == [];
  }

  lemma MapTrimOfTrimmed(tools: seq<string>)
    requires forall k :: 0 <= k < |tools| ==> Trim(tools[k]) == tools[k]
    ensures MapSeq(tools, Trim) == tools
  {
  }

  /** A field of only commas and white space passes the length check yet gives
      no tool at all. */
  lemma SeparatorsOnly(raw: string)
    requires |raw| >= 1
    requires forall k :: 0 <= k < |raw| ==> raw[k] == ',' || IsSpace(raw[k])
    ensures ToolsFieldValid(raw) && ParseTools(raw) == []
  {
    var pieces := Split(raw, ',');
    var trimmed := MapSeq(pieces, Trim);
    JoinChars(pieces, ',');
    forall m | 0 <= m < |trimmed| ensures !NonEmpty(trimmed[m]) {
      forall k | 0 <= k < |pieces[m]| ensures IsSpace(pieces[m][k]) {
        assert pieces[m][k] in raw;
      }
      TrimAllSpace(pieces[m]);
    }
    FilterNone(trimmed, NonEmpty);
  }

  /** The request body `{ ...values, toolsRequired: toolsArray }`. */
  function Payload(values: FormValues): NewTutorial {
    NewTutorial(values.title, values.imageSource, values.styleCategory, values.difficultyLevel,
      ParseTools(values.toolsRequired), values.tutorialContent, values.creatorCredit)
  }

  /** The form filled in from a tutorial: its tools typed as one field, joined by ",". */
  function FormOf(t: NewTutorial): FormValues {
    FormValues(t.title, t.imageSource, t.styleCategory, t.difficultyLevel,
      Join(t.toolsRequired, ','), t.tutorialContent, t.creatorCredit)
  }

  /** A tutorial typed into the form comes back as the request body unchanged,
      when its tools are non-empty, trimmed and comma-free. */
  lemma PayloadRoundTrip(t: NewTutorial)
    requires forall k :: 0 <= k < |t.toolsRequired| ==>
      t.toolsRequired[k] != "" && Trim(t.toolsRequired[k]) == t.toolsRequired[k] && ',' !in t.toolsRequired[k]
    ensures Payload(FormOf(t)) == t
  {
    ParseToolsOfJoin(t.toolsRequired);
  }
}
