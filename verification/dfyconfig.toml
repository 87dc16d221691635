includes = ["**/*.dfy"]

