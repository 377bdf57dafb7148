# Karma `center[...]` directive: configuration layer

This project models the configuration layer of Boost.Spirit Karma's centering
output directive, `include/boost/spirit/home/karma/directive/center_alignment.hpp`.
The header defines four policy structs: `simple_center_aligment` (`center[c]`),
`width_center_aligment` (`center(w)[c]`), `padding_center_aligment`
(`center(p)[c]`) and `full_center_aligment` (`center(w, p)[c]`). Each one has a
`generate` that picks the content generator, the field width and the padding
generator and hands them to the centering engine `detail::center_generate`.
Each one also has a `what` that builds a diagnostic description string.

The model has three modules:

- `Wrappers` (`wrappers.dfy`) holds the `Option` datatype.
- `LexicalCast` (`lexical_cast.dfy`) models `boost::lexical_cast<std::string>`
  on integers. `Decimal` renders an integer as canonical decimal text,
  `ParseDecimal` reads it back, and there are round-trip lemmas for both
  directions.
- `CenterAlignment` (`center_alignment.dfy`) holds the rest:
  - `Directive<G>` has one constructor per policy struct.
  - `Resolve` gives the triple passed to the engine.
  - `Generate` gives the result of `generate`.
  - `What` gives the description.
  - `ParseWidth` reads the width back out of a description.

Generators are values of an opaque type `G`. The engine is called at this
layer but defined elsewhere, so it is a function-typed parameter (`Engine`). It
maps the sink, context, delimiter, parameter and resolved triple to an
`Outcome`: a success flag and the sink after generation. The sink, context,
delimiter and parameter are opaque pass-through values. Each inner generator's
own `what` is the parameter `describe: G -> string`, with the context fixed.

`BOOST_KARMA_DEFAULT_FIELD_LENGTH` is the constant `DefaultFieldLength` = 10.
That is the header's value when the build does not predefine the macro. The
default padding is the character literal `' '`.
- `simple_center_aligment` passes it as `as_component(karma::domain(), ' ')`.
- `width_center_aligment` passes the bare `' '`.

The model keeps the two spellings apart: `Pad` has a constructor
`CharComponent(' ')` for the first and `Char(' ')` for the second. What the
engine does with either is not visible at this layer. So `center[c]` is proved
to behave like `center(10)[c]` exactly when the engine gives the same outcome
for the two spellings. A second lemma shows that some engine tells them apart.

The header neither checks nor converts the width argument, and `lexical_cast`
writes a negative integer with a leading `-`. The model follows the code: the
width is an `int`, `Decimal` handles the sign, and the width is passed on
unchanged.

## Model

| member | source | states |
|---|---|---|
| CenterAlignment.Resolve | include/boost/spirit/home/karma/directive/center_alignment.hpp:55-198 | at the four calls (lines 55-57, 98-99, 145-147, 196-198), the content passed on is always the bracketed generator; an explicit width or padding argument is passed on unchanged; a missing width becomes `BOOST_KARMA_DEFAULT_FIELD_LENGTH`, 10 (lines 25-27); a missing padding becomes the space, wrapped as a component by the simple variant and bare by the width variant |
| CenterAlignment.Generate | include/boost/spirit/home/karma/directive/center_alignment.hpp:55-198 | every variant returns the engine's success flag and the engine's sink unchanged, so no variant fails or writes on its own; the engine gets the resolved triple (`Resolve`), as the single return statements at lines 55, 98, 145 and 196 do |
| CenterAlignment.BehaviourIsResolve | include/boost/spirit/home/karma/directive/center_alignment.hpp:98-99 | two directives generate the same outcome under every engine if and only if they resolve to the same (content, width, padding) triple; so the width variant's behaviour is fixed by its subject, its width argument and the space padding |
| CenterAlignment.SimpleIsDefaultWidth | include/boost/spirit/home/karma/directive/center_alignment.hpp:98-99 | `center[c]` generates exactly like `center(10)[c]` under an engine if and only if that engine gives the same outcome for the space component (line 57) and the bare space (line 99) with the same content and width 10 |
| CenterAlignment.SimpleMayDifferFromDefaultWidth | include/boost/spirit/home/karma/directive/center_alignment.hpp:55-57 | some engine tells `center[c]` from `center(10)[c]`, because the simple variant passes the space as `as_component(karma::domain(), ' ')` and the width variant passes the bare `' '` |
| CenterAlignment.PaddingIsDefaultFull | include/boost/spirit/home/karma/directive/center_alignment.hpp:145-147 | `center(p)[c]` (subject, default length, caller's padding) generates exactly like `center(10, p)[c]` under every engine |
| CenterAlignment.What | include/boost/spirit/home/karma/directive/center_alignment.hpp:63-71 | every description starts with "center" and ends with the content's description followed by "]"; the seventh character is '[' exactly for the simple variant and '(' for the other three |
| CenterAlignment.WhatLayout | include/boost/spirit/home/karma/directive/center_alignment.hpp:204-223 | the length of each description, and the position of each part after "center(": the width's decimal text, the padding's description, and the ", " and ")[" separators; with What's prefix and suffix this fixes every character of all four descriptions |
| CenterAlignment.WidthIsRecoverable | include/boost/spirit/home/karma/directive/center_alignment.hpp:105-117 | the width-only and full descriptions can be read back to exactly the width argument; the simple description shows no width |
| CenterAlignment.PaddingMayReadAsWidth | include/boost/spirit/home/karma/directive/center_alignment.hpp:153-168 | the padding-only description "center(" + padding + ")[" + content + "]" is the same text as a width-only description when the padding's own description is the decimal text of that width, for every integer width |
| CenterAlignment.StopIndexAfter | include/boost/spirit/home/karma/directive/center_alignment.hpp:204-208 | in the full description the width text runs up to the first ',' (and in the width-only one up to the first ')'), because the decimal width contains neither |
| LexicalCast.Decimal | include/boost/spirit/home/karma/directive/center_alignment.hpp:107-108 | the written width is non-empty, starts with '-' exactly when it is negative, and is otherwise made of digits |
| LexicalCast.Digits | include/boost/spirit/home/karma/directive/center_alignment.hpp:206-207 | the digits of a natural number carry no leading zero, and start with '0' only for zero |
| LexicalCast.ParseDecimalOfDecimal | include/boost/spirit/home/karma/directive/center_alignment.hpp:107-108 | reading back the written width gives the width |
| LexicalCast.DecimalOfParseDecimal | include/boost/spirit/home/karma/directive/center_alignment.hpp:206-207 | every text that reads as an integer is exactly what is written for that integer (the canonical form) |
| LexicalCast.DecimalInjective | include/boost/spirit/home/karma/directive/center_alignment.hpp:107-108 | different widths are written as different text |
| LexicalCast.ValueOfDigits | include/boost/spirit/home/karma/directive/center_alignment.hpp:107-108 | the digits of n denote n |
| LexicalCast.DigitsOfValue | include/boost/spirit/home/karma/directive/center_alignment.hpp:206-207 | a canonical digit string is the rendering of its own value |

## Left out

- `detail::center_generate`, the centering engine, is not part of this model. Its header `detail/center_alignment_generate.hpp` is `#include`d at `center_alignment.hpp` line 16. The engine becomes the `Engine` parameter, so nothing is stated about how padding is split, the buffer-then-copy scheme, delimiter placement or the no-partial-output guarantee.
- CenterAlignment.Resolve: the space component that the simple variant passes (`CharComponent`) is kept apart from every caller-supplied padding generator (`Given`). The header does not show whether a caller's padding written as the space literal reaches the engine as the same component, so the model cannot state that such a padding acts like the default, and `BehaviourIsResolve` counts `center[c]` and `center(' ')[c]` as resolving differently.
- The nested `attribute` metafunctions of the four structs are left out. They compute types at compile time from the component tree and have no runtime behaviour.
- The Proto/Spirit accessors (`argument1`, `argument2`, `subject`, `proto::child_c<0>`, `as_component`) are left out. They are the fields of the `Directive` constructors; the space wrapped by `as_component` is the `CharComponent` padding.
- Sink, context, delimiter and parameter are opaque type parameters. The sink's mutation is modelled as the sink value returned in `Outcome`. The engine also receives the context by non-const reference and may change it; `Outcome` does not carry a changed context.
- LexicalCast.Decimal: models the "C"-locale rendering only, with no digit grouping. `lexical_cast` writes through the global locale unless `BOOST_LEXICAL_CAST_ASSUME_C_LOCALE` is defined, and the locale is outside this model. Under a global locale with digit grouping, width 10000 would be written "10,000", which `What`, `WhatLayout` and `WidthIsRecoverable` do not cover.
- `boost::lexical_cast` is modelled only for integer widths. Other width types, such as floating point or user types, are not modelled.
- Redefining `BOOST_KARMA_DEFAULT_FIELD_LENGTH` at build time is not modelled. `DefaultFieldLength` is the header's fallback of 10.
- The include guards, the includes and the MSVC `#pragma once` block are build plumbing and are left out.
