# Pattern-update script, modelled in Dafny

The script `scripts/update_patterns.py` keeps a markdown security-pattern
document up to date. A context provider returns fixed guidance text naming
NIST and the Cloud Security Alliance. A mock update generator turns that
context into a fixed four-line advisory. The appender then reads the
document and looks for the advisory text in it. When the text is missing,
it appends a section of the form

```

## Automated Update (YYYY-MM-DD)

<advisory text>
```

and writes the document back. When the text is already there, it writes
nothing.

The model has two modules:

- `Text` (`text.dfy`): the substring test `Contains(s, t)`, which is
  Python's `t in s` on strings, and the facts about it that the update rule
  needs. These are a witness lemma, "too long to occur", occurrence in the
  middle of a concatenation, preservation under appending, and transitivity.
- `UpdatePatterns` (`update_patterns.dfy`): the two constant functions, the
  dated section, the pure append rule `UpdatedContent` with its lemmas, and
  the class `Document`. The class's `content` field stands in for the file,
  and its method `AppendUpdate` performs one run of the script.

The date of the run is a parameter `today`, already formatted. The append
rule is stated for any update text. The script's run is that rule applied to
the advisory text `AdvisoryText()`, which is
`GenerateLlmUpdate(RetrieveExternalData())` as computed at
scripts/update_patterns.py:32-33. `Heading(today)` is the heading line
`## Automated Update (<today>)` inside the section built at line 35.

## Model

| member | source | states |
|---|---|---|
| `UpdatePatterns.RetrieveExternalData` | scripts/update_patterns.py:6-11 | takes no input; the fixed guidance text names both of its sources, "NIST" and "Cloud Security Alliance" |
| `UpdatePatterns.GenerateLlmUpdate` | scripts/update_patterns.py:14-27 | whatever the context, the result is the four advisory lines joined by single line breaks, with no break after the last line |
| `UpdatePatterns.GenerateIgnoresContext` | scripts/update_patterns.py:14-27 | any two contexts, including the empty one, give the same advisory text |
| `UpdatePatterns.DatedSection` | scripts/update_patterns.py:34-36 | the section is 26 characters longer than the date and the text together; it opens with a line break and the heading `## Automated Update (<today>)`, contains both the heading and the update text, and ends with a line break |
| `UpdatePatterns.UpdatedContent` | scripts/update_patterns.py:30-39 | the old text is always a prefix of the result; the update text always occurs in the result; the result equals the old text exactly when the update text already occurred in it; otherwise what follows the old text is exactly the dated section, so the length grows by the section's length or not at all |
| `UpdatePatterns.UpdateIdempotent` | scripts/update_patterns.py:34-39 | a second run leaves the document unchanged, even on another date |
| `UpdatePatterns.AppendedSectionIsDated` | scripts/update_patterns.py:34-38 | when a section is appended, the document then contains the heading stamped with the run's date |
| `UpdatePatterns.RunOnDays` | scripts/update_patterns.py:30-39 | successive runs on a list of days keep the original text as a prefix, and after at least one run the update text is present |
| `UpdatePatterns.RunOnDaysAppendsOnce` | scripts/update_patterns.py:30-39 | any non-empty series of runs leaves the document as the first run left it: at most one section, dated with the first day |
| `UpdatePatterns.FreshDocumentGetsSection` | scripts/update_patterns.py:34-38 | a document holding only `# Pattern` and a line break becomes that text, a blank line, the dated heading, a blank line, the advisory text and a line break |
| `UpdatePatterns.Document.constructor` | scripts/update_patterns.py:31 | the document starts with the text it is given |
| `UpdatePatterns.Document.AppendUpdate` | scripts/update_patterns.py:30-39 | the document is written exactly when the advisory text did not occur in its old content; the new content is the append rule applied to the old content, the date and the advisory text |

## Left out

- Reading and writing the file (`path.read_text()`, `path.write_text()`): `content` stands for the decoded text after Python's line-break translation, not for the file's bytes. On reading, "\r\n" and "\r" become "\n"; on writing, "\n" becomes the platform's line separator. So a run that appends a section can rewrite the line breaks of the earlier text (a file with "\r\n" breaks comes back with "\n" on POSIX, and one with "\n" breaks comes back with "\r\n" on Windows): the prefix property of `UpdatePatterns.UpdatedContent` and `UpdatePatterns.Document.AppendUpdate` holds for the decoded text, not byte for byte. Missing-file, permission and decoding (`UnicodeDecodeError`) errors are not modelled, and neither is a write that fails half-way.
- `datetime.date.today()`: the date is a string parameter. The model does not check that it has the `YYYY-MM-DD` shape that Python's date formatting gives.
- The `prompt` string built in `generate_llm_update` is never used by the script, and the text-generation service it stands for is a foreign, non-deterministic call. Neither is modelled.
- The `__main__` entry point and its hard-coded document path.
- Concurrent runs on the same file: the script takes no lock, so two runs can race on the read-modify-write. The model is sequential.
- `Document.AppendUpdate` returns whether the write happened. The Python function returns nothing; the flag stands for the call to `path.write_text`.
