/** Configurations as values, and the tokens of their text form. */
module ConfigModel {

  datatype Option<+T> = None | Some(value: T)

  datatype Item = Item(name: string, comment: string, values: seq<string>)

  datatype Section = Section(name: string, comment: string, date: Option<string>, items: seq<Item>)

  type Config = seq<Section>

  datatype Token =
    | Str(text: string)
    | ItemComment(text: string)
    | SectionComment(text: string)
    | SectionDate(text: string)
    | SectionBegin
    | SectionEnd
    | ListBegin
    | ListEnd
    | DateBegin
    | DateEnd
    | Equals
    | Comma
}
