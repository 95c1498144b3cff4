/** The portfolio project record shared by the admin console and the portfolio page. */
module ProjectType {

  datatype Project = Project(
    id: int,
    title: string,
    category: string,
    description: string,
    image: string,
    tags: seq<string>,
    link: string,
    github: string)
}
