/**
 * Lessons and their playground prompt (scripts/generate-playgrounds.py):
 * the section table, the "already has a playground" marker test, the
 * lesson title and the prompt sent to the model.
 */
module Lessons {
  import opened Wrappers
  import opened Text

  /** The opening tag of a Sandpack playground. */
  const SandpackTag := "<Sandpack"

  /** The heading under which a playground is added to a lesson. */
  const SectionHeading := "## Интерактивный пример"

  /** The title used when a lesson has no heading line. */
  const FallbackTitle := "урок"

  /** The lesson sections that can be processed, each with its Sandpack template. */
  const Sections: map<string, string> := map[
    "javascript" := "vanilla",
    "typescript" := "vanilla-ts",
    "css" := "vanilla",
    "html" := "vanilla",
    "php" := "vanilla",
    "react" := "react"
  ]

  /**
   * Every section uses one of three templates, and only the `react` section
   * gets the React one (and with it the `/App.tsx` entry file).
   */
  lemma SectionTemplates()
    ensures forall s :: s in Sections ==> Sections[s] in {"vanilla", "vanilla-ts", "react"}
    ensures forall s :: s in Sections ==> (Sections[s] == "react" <==> s == "react")
  {
  }

  /** A lesson already has a playground when it holds the Sandpack tag or the playground heading. */
  function HasPlayground(content: string): (b: bool)
    ensures b <==> (exists i :: OccursAt(content, SandpackTag, i))
                   || (exists i :: OccursAt(content, SectionHeading, i))
  {
    Contains(content, SandpackTag) || Contains(content, SectionHeading)
  }

  /** The number of `#` characters a line starts with. */
  function LeadingHashes(line: string): (m: nat)
    ensures m <= |line|
    ensures forall k :: 0 <= k < m ==> line[k] == '#'
    ensures m < |line| ==> line[m] != '#'
  {
    if |line| > 0 && line[0] == '#' then 1 + LeadingHashes(line[1..]) else 0
  }

  /** `m` copies of `#`. */
  function Hashes(m: nat): (s: string)
    ensures |s| == m && forall k :: 0 <= k < m ==> s[k] == '#'
  {
    seq(m, _ => '#')
  }

  /**
   * What the pattern `^#+ (.+)$` captures when it matches a whole line
   * (a line holds no newline, so `.+` is the rest of the line).
   */
  function HeadingText(line: string): Option<string> {
    var m := LeadingHashes(line);
    if 1 <= m && m + 1 < |line| && line[m] == ' ' then Some(line[m + 1..]) else None
  }

  /**
   * A line is a heading with text `t` exactly when it is one or more `#`,
   * a space and then `t`, which is not empty.
   */
  lemma HeadingTextIff(line: string, t: string)
    ensures HeadingText(line) == Some(t) <==> exists m: nat :: 1 <= m && |t| >= 1 && line == Hashes(m) + " " + t
  {
    if HeadingText(line) == Some(t) {
      var m := LeadingHashes(line);
      assert line == Hashes(m) + " " + t;
    }
    if exists m: nat :: 1 <= m && |t| >= 1 && line == Hashes(m) + " " + t {
      var m: nat :| 1 <= m && |t| >= 1 && line == Hashes(m) + " " + t;
      HashesThenSpace(m, t);
    }
  }

  lemma {:induction false} HashesThenSpace(m: nat, t: string)
    ensures LeadingHashes(Hashes(m) + " " + t) == m
    decreases m
  {
    if m > 0 {
      assert (Hashes(m) + " " + t)[1..] == Hashes(m - 1) + " " + t;
      HashesThenSpace(m - 1, t);
    }
  }

  /** The index of the first line that is a heading. */
  function FirstHeading(lines: seq<string>): (r: Option<nat>)
    ensures r.Some? ==> r.value < |lines| && HeadingText(lines[r.value]).Some?
    ensures r.Some? ==> forall k :: 0 <= k < r.value ==> HeadingText(lines[k]).None?
    ensures r.None? ==> forall k :: 0 <= k < |lines| ==> HeadingText(lines[k]).None?
  {
    if |lines| == 0 then None
    else if HeadingText(lines[0]).Some? then Some(0)
    else match FirstHeading(lines[1..])
      case Some(k) => Some(k + 1)
      case None => None
  }

  /**
   * `get_lesson_title`: the text of the first heading line (`re.MULTILINE`
   * makes `^` and `$` match at every line), or the fallback title; never empty.
   */
  function LessonTitle(content: string): (title: string)
    ensures |title| > 0
    ensures var lines := Split(content, '\n');
            || (exists k :: 0 <= k < |lines| && HeadingText(lines[k]) == Some(title)
                            && forall j :: 0 <= j < k ==> HeadingText(lines[j]).None?)
            || (title == FallbackTitle && forall k :: 0 <= k < |lines| ==> HeadingText(lines[k]).None?)
  {
    var lines := Split(content, '\n');
    match FirstHeading(lines)
    case Some(k) => HeadingText(lines[k]).value
    case None => FallbackTitle
  }

  /** The part of the lesson quoted in the prompt: its first 2000 characters. */
  function Fragment(content: string): (f: string)
    ensures |f| == if |content| > 2000 then 2000 else |content|
    ensures StartsWith(content, f)
  {
    if |content| > 2000 then content[..2000] else content
  }

  /** The sandbox entry file: a React component for the `react` template, an HTML page otherwise. */
  function EntryFile(template: string): (name: string)
    ensures name == "/App.tsx" <==> template == "react"
    ensures name == "/index.html" <==> template != "react"
  {
    if template == "react" then "/App.tsx" else "/index.html"
  }

  /** The first rule of the prompt: what the one file must hold. */
  function FileDescription(template: string): string {
    if template == "react" then "один файл App.tsx с React компонентом"
    else "один HTML файл со встроенными стилями и скриптом"
  }

  /** The fixed text of the prompt, around the parts that vary. */
  const PromptOpening := "Создай МИНИМАЛЬНЫЙ рабочий Sandpack playground для урока.\n\nТема: "
  const PromptSection := "\nСекция: "
  const PromptFragment := "\n\nФрагмент урока:\n"
  const PromptFormat := "\n\nФОРМАТ (верни ТОЛЬКО этот блок):\n\n"
  const PromptTemplate := "\n\n<Sandpack\n  template=\""
  const PromptFiles := "\"\n  files={{\n    \""
  const PromptRules := "\": `\n[КОД ФАЙЛА - 20-50 строк макс]\n`\n  }}\n/>\n\nПРАВИЛА:\n1. "
  const PromptMoreRules := "\n2. Код МИНИМАЛЬНЫЙ и ИНТЕРАКТИВНЫЙ\n3. Escape: \\${} для template literals, <\\/script> для тегов\n4. Тёмная тема: background #282c34, color white\n5. Блок ДОЛЖЕН заканчиваться на `/>` \n"

  /**
   * `get_prompt`: the instruction text for one lesson. It names the
   * lesson's title, section and template, quotes the lesson fragment and
   * names the entry file. `filename` takes no part in it.
   */
  function Prompt(content: string, section: string, template: string, filename: string): (p: string)
    ensures Contains(p, LessonTitle(content))
    ensures Contains(p, section)
    ensures Contains(p, Fragment(content))
    ensures Contains(p, template)
    ensures Contains(p, EntryFile(template))
  {
    var title := LessonTitle(content);
    var fragment := Fragment(content);
    var file := EntryFile(template);
    var parts := [PromptOpening, title, PromptSection, section, PromptFragment, fragment, PromptFormat, SectionHeading,
                  PromptTemplate, template, PromptFiles, file, PromptRules, FileDescription(template), PromptMoreRules];
    PartOccurs(parts, 1);
    PartOccurs(parts, 3);
    PartOccurs(parts, 5);
    PartOccurs(parts, 9);
    PartOccurs(parts, 11);
    Concat(parts)
  }

  /** The prompt depends on the lesson, section and template only. */
  lemma PromptIgnoresFilename(content: string, section: string, template: string, f1: string, f2: string)
    ensures Prompt(content, section, template, f1) == Prompt(content, section, template, f2)
  {
  }
}
