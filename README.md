# Persona analysis dashboard: the tag pipeline, verified

The persona analysis dashboard reads a table of personas. Each persona has a
`Faction` and a comma-separated `Tags` cell. Before drawing anything it
derives four things from the table:

- `tags`: every `Tags` cell split on `','`, with the pieces stacked into one
  token list.
- `tags_with_factions`: the same tokens as a relation, one row per token,
  each row carrying the faction of the persona the token came from.
- `faction_counts` (personas per faction) and `tag_counts` (occurrences per
  token). Both are produced by `value_counts()`.
- The heatmap table `groupby(['Faction','Tag']).size().unstack(fill_value=0)`.
  It counts relation rows per (faction, tag) pair and fills absent pairs with 0.

This project models that pipeline as Dafny functions over sequences and maps
and proves how the four results fit together.

The model follows the code exactly:

- Tokens are not trimmed: `"a, b"` gives `"a"` and `" b"`.
- Empty tokens are kept.
- A tag repeated in one cell is counted once per repeat.
- Only missing cells vanish. A missing `Tags` cell adds no token and no
  relation row.
- A missing `Faction` is dropped by `value_counts` and by `groupby`. Such a
  persona still adds its tokens to `tags` and `tag_counts`, but not to
  `faction_counts` or to the heatmap.
- The heatmap's columns are therefore the tags of the relation rows *with a
  present faction*. When every persona has a faction, they are all tags of
  the relation.

Modules:

- `Counting`: occurrence tables (`ValueCounts`, the `value_counts` /
  `size()` step) and `SumValues`, with the lemmas that turn counts into sums.
- `TagSplit`: `Split` and `Join`, modelling Python's `str.split(',')` and
  `','.join`.
- `Personas`: the persona table, the token list, the relation and the two
  count tables.
- `CrossTabulation`: group sizes, the unstacked dense table, and its row,
  column and grand totals.
- `Dashboard`: the heatmap built from the persona table, proved consistent
  with `faction_counts` and `tag_counts`.

A missing cell is `None`. Strings are sequences of characters. Count tables
are maps from label to count. The heatmap is a map from faction to (tag to
count), plus its set of column labels.

## Model

| member | source | states |
|---|---|---|
| TagSplit.Split | streamlit_app.py:18 | a cell splits into exactly one more piece than it has commas, and no piece contains a comma |
| TagSplit.JoinSplit | streamlit_app.py:18 | joining a cell's pieces with `','` gives back the cell exactly, so nothing is trimmed or dropped |
| TagSplit.SplitJoin | streamlit_app.py:18 | splitting the join of comma-free pieces gives back those pieces, so `Split` is the only way to cut a cell into comma-free pieces |
| TagSplit.SplitExample | streamlit_app.py:18 | `"a, b,,a"` splits into `"a"`, `" b"`, `""`, `"a"`: no trimming, and the empty token is kept |
| Personas.RecordTokens | streamlit_app.py:18 | a missing cell gives no token; a present cell gives commas + 1 tokens that join back to the cell |
| Personas.Tokens | streamlit_app.py:18 | the stacked token list holds only comma-free tokens |
| Personas.TokensLength | streamlit_app.py:18 | the token list's length is the sum of (commas + 1) over the present `Tags` cells, counted without splitting |
| Personas.MissingTagsContributeNothing | streamlit_app.py:18-20 | inserting a persona with a missing `Tags` cell anywhere changes neither the token list nor the relation |
| Personas.Relation | streamlit_app.py:19-20 | the relation's `Tag` column is exactly the token list of line 18, in the same order |
| Personas.RelationRowOrigin | streamlit_app.py:20 | each relation row carries the faction of a persona whose cell holds that row's tag |
| Personas.FactionColumn | streamlit_app.py:17-24 | the `Faction` column of line 17 as `value_counts` at line 24 sees it: the present faction values, one per persona with a faction, each faction once per persona of that faction |
| Personas.FactionCounts | streamlit_app.py:24 | a faction is listed iff some persona has it; its count is the number of such personas, so at least 1 |
| Personas.FactionCountsSum | streamlit_app.py:24 | the faction counts add up to the number of personas whose faction is present |
| Personas.TagCounts | streamlit_app.py:34 | a token is listed iff it occurs in some cell; its count is its number of occurrences, repeats included |
| Personas.TagCountsSum | streamlit_app.py:34 | the tag counts add up to the total number of tokens, which is the sum of (commas + 1) over present cells |
| Personas.TagCountsAppend | streamlit_app.py:34 | the tag counts of two stacked tables are the sums of their separate tag counts |
| Personas.TagCountsExample | streamlit_app.py:34 | one cell `"a,a, a"` counts `"a"` twice and `" a"` once: no deduplication, no trimming |
| Counting.ValueCounts | streamlit_app.py:24 | an occurrence table lists exactly the elements present, each with its multiplicity |
| Counting.ValueCountsSum | streamlit_app.py:34 | an occurrence table's counts add up to the length of the counted sequence |
| CrossTabulation.GroupBySize | streamlit_app.py:44 | there is one group per (faction, tag) pair that occurs with a present faction, and its size is that pair's number of relation rows (at least 1) |
| CrossTabulation.Unstack | streamlit_app.py:44 | unstacking gives a dense table: rows are the groups' factions and columns are the groups' tags; group sizes are kept and every other cell is 0 |
| CrossTabulation.CrossTabulate | streamlit_app.py:44 | the table is dense; its rows and columns are exactly the factions and tags of relation rows with a present faction; each cell counts the rows with its pair, and an absent pair holds 0 |
| CrossTabulation.CrossTabLabels | streamlit_app.py:44 | a relation row with a present faction puts its faction among the rows and its tag among the columns; every row and column label comes from such a row |
| CrossTabulation.CrossTabRowTotal | streamlit_app.py:44 | row `f` adds up to the number of relation rows of faction `f` |
| CrossTabulation.CrossTabColumnTotal | streamlit_app.py:44 | column `t` adds up to the number of relation rows with tag `t` and a present faction; when no faction is missing, to the occurrences of `t` in the `Tag` column |
| CrossTabulation.CrossTabGrandTotal | streamlit_app.py:44 | all cells add up to the number of relation rows with a present faction; when no faction is missing, to the number of relation rows |
| Dashboard.TagsOfFactionRelation | streamlit_app.py:20 | the relation rows of faction `f` carry exactly the tokens of the personas of faction `f`, in table order |
| Dashboard.FactionsOfTagRelation | streamlit_app.py:20 | the relation rows with tag `t` and a present faction are as many as the occurrences of `t` on personas with a present faction |
| Dashboard.HeatmapColumnLabel | streamlit_app.py:44 | a tag is a heatmap column iff it occurs on some persona with a present faction; when every persona has a faction, iff it occurs at all |
| Dashboard.FactionTagCounts | streamlit_app.py:44 | the heatmap's rows are the factions with at least one token, all listed in `faction_counts`; its columns are exactly the tags on personas with a present faction; a cell counts its tag's occurrences on its faction's personas; when every persona has a faction, its columns are exactly `tag_counts`' tags |
| Dashboard.HeatmapRowTotal | streamlit_app.py:44 | row `f` of the heatmap adds up to the number of tokens on personas of faction `f` |
| Dashboard.HeatmapColumnTotal | streamlit_app.py:44 | column `t` of the heatmap adds up to the occurrences of `t` on personas with a present faction, at least 1; when every persona has a faction, to `tag_counts[t]` |
| Dashboard.HeatmapGrandTotal | streamlit_app.py:44 | all heatmap cells add up to the tokens on personas with a faction; when every persona has a faction, to the relation's length and to the sum of `tag_counts` |
| Dashboard.TaglessFactionHasNoRow | streamlit_app.py:44 | a faction whose personas all lack a `Tags` cell is listed in `faction_counts` but has no heatmap row |

## Left out

- Reading the spreadsheet with `pd.read_excel` (streamlit_app.py:14). This is file I/O through a library. The model takes the persona table as its input.
- The Streamlit calls: title, file uploader, subheaders, `st.pyplot` and the fallback message. They only present results.
- Chart construction with matplotlib and seaborn: bar charts, heatmap styling and axis labels. These are rendering through libraries.
- The descending-by-count order of `value_counts` and its tie-breaking. Count tables are maps, and order only affects how the bars are drawn.
- The order of the heatmap's row and column labels, which pandas sorts. The table is modelled as maps keyed by label.
- Pandas dtype corner cases. A non-string `Tags` cell becomes a missing value under `.str.split`. A `Tags` column with no strings at all makes the `.str` accessor fail. `Tags` is modelled as an optional string; a missing cell is `None`.
- The `level_1` column that `reset_index` adds to `tags_with_factions`. It holds each token's position in its cell, and nothing downstream reads it.
- Pandas' default for `stack()` is assumed: missing values are dropped. The padding that `expand=True` adds to shorter rows is missing too, so it vanishes the same way.
- Several features are not in the code, so they are not modelled: tag co-occurrence matrices, bulk find/replace of tags, map pins from coordinates, re-export of the edited table, schema validation with error kinds, and trimming, empty-token removal or per-persona deduplication of tags.
